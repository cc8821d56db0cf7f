/** Physical memory manager (src/pmm.rs): one bit per 4 KiB frame, packed
    eight to a byte, a set bit meaning "in use". Frames are numbered; frame
    `f` is the physical range [4096*f, 4096*(f+1)). The abstract value of the
    bitmap is the set of free frames. */
module Pmm {
  import opened Wrappers

  const FRAME_SIZE: nat := 4096
  const FRAME_COUNT: nat := 65536
  const BITMAP_BYTES: nat := 8192

  /** The mask `1 << k`. */
  function Bit(k: nat): bv8
    requires k < 8
  {
    if k == 0 then 1 else Bit(k - 1) << 1
  }

  /** The eight masks. */
  function Mask(k: nat): bv8
    requires k < 8
  {
    match k
    case 0 => 0x01 case 1 => 0x02 case 2 => 0x04 case 3 => 0x08
    case 4 => 0x10 case 5 => 0x20 case 6 => 0x40 case _ => 0x80
  }

  lemma {:induction false} BitIsMask(k: nat)
    requires k < 8
    ensures Bit(k) == Mask(k)
  {
    if k > 0 {
      BitIsMask(k - 1);
    }
  }

  /** Setting and clearing one bit of a byte leaves the seven others alone. */
  lemma BitOps(b: bv8, k: nat, j: nat)
    requires k < 8 && j < 8
    ensures (b | Bit(k)) & Bit(j) == if j == k then Bit(j) else b & Bit(j)
    ensures (b & !Bit(k)) & Bit(j) == if j == k then 0 else b & Bit(j)
    ensures Bit(j) != 0
  {
    BitIsMask(k);
    BitIsMask(j);
  }

  predicate BitClear(s: seq<bv8>, i: nat, k: nat)
    requires i < |s| && k < 8
  {
    s[i] & Bit(k) == 0
  }

  predicate FreeIn(s: seq<bv8>, f: nat)
    requires f / 8 < |s|
  {
    BitClear(s, f / 8, f % 8)
  }

  /** The frames below `n` whose bit is clear. */
  ghost function FreeUpTo(s: seq<bv8>, n: nat): (r: set<nat>)
    requires n <= 8 * |s|
    ensures forall f :: f in r ==> f < n
  {
    if n == 0 then {} else FreeUpTo(s, n - 1) + (if FreeIn(s, n - 1) then {n - 1} else {})
  }

  lemma {:induction false} FreeHas(s: seq<bv8>, n: nat, f: nat)
    requires f < n <= 8 * |s|
    ensures f in FreeUpTo(s, n) <==> FreeIn(s, f)
  {
    if f < n - 1 {
      FreeHas(s, n - 1, f);
    }
  }

  lemma {:induction false} NoneFree(s: seq<bv8>, n: nat)
    requires n <= 8 * |s| && forall i :: 0 <= i < |s| ==> s[i] == 0xFF
    ensures FreeUpTo(s, n) == {}
  {
    if n > 0 {
      NoneFree(s, n - 1);
      BitOps(0xFF, (n - 1) % 8, (n - 1) % 8);
    }
  }

  lemma {:induction false} ByteOn(b: bv8, b2: bv8, k: nat, l: nat)
    requires k < 8 && l < 8 && b2 == b | Bit(k)
    ensures b2 & Bit(l) == 0 <==> b & Bit(l) == 0 && k != l
  {
    BitOps(b, k, l);
  }

  lemma {:induction false} ByteOff(b: bv8, b2: bv8, k: nat, l: nat)
    requires k < 8 && l < 8 && b2 == b & !Bit(k)
    ensures b2 & Bit(l) == 0 <==> b & Bit(l) == 0 || k == l
  {
    BitOps(b, k, l);
  }

  /** The bits of a bitmap after byte `i` became `c`. */
  lemma {:induction false} BitIn(s: seq<bv8>, s2: seq<bv8>, i: nat, c: bv8, j: nat, l: nat)
    requires i < |s| && j < |s| && l < 8 && s2 == s[i := c]
    ensures BitClear(s2, j, l) <==> if i == j then c & Bit(l) == 0 else BitClear(s, j, l)
  {
  }

  /** The other bits when bit `k` of byte `i` is set. */
  lemma {:induction false} BitOn(s: seq<bv8>, on: seq<bv8>, i: nat, c: bv8, k: nat, j: nat, l: nat)
    requires i < |s| && j < |s| && k < 8 && l < 8 && on == s[i := c] && c == s[i] | Bit(k)
    ensures BitClear(on, j, l) <==> BitClear(s, j, l) && !(i == j && k == l)
  {
    BitIn(s, on, i, c, j, l);
    if i == j {
      ByteOn(s[i], c, k, l);
    }
  }

  /** The other bits when it is cleared. */
  lemma {:induction false} BitOff(s: seq<bv8>, off: seq<bv8>, i: nat, c: bv8, k: nat, j: nat, l: nat)
    requires i < |s| && j < |s| && k < 8 && l < 8 && off == s[i := c] && c == s[i] & !Bit(k)
    ensures BitClear(off, j, l) <==> BitClear(s, j, l) || (i == j && k == l)
  {
    BitIn(s, off, i, c, j, l);
    if i == j {
      ByteOff(s[i], c, k, l);
    }
  }

  lemma SameBit(f: nat, g: nat)
    ensures f / 8 == g / 8 && f % 8 == g % 8 <==> f == g
  {
  }

  /** The free frames after the bit of `f` changed. */
  lemma {:induction false} FreeAfter(s: seq<bv8>, s2: seq<bv8>, f: nat, n: nat, freed: bool)
    requires n <= 8 * |s| && |s2| == |s|
    requires forall g: nat :: g < n ==> (FreeIn(s2, g) <==> if freed then FreeIn(s, g) || g == f else FreeIn(s, g) && g != f)
    ensures FreeUpTo(s2, n) == if freed then FreeUpTo(s, n) + (if f < n then {f} else {}) else FreeUpTo(s, n) - {f}
  {
    if n > 0 {
      FreeAfter(s, s2, f, n - 1, freed);
    }
  }

  /** Setting the bit of `f` takes it out of the free frames. */
  lemma SetByte(s: seq<bv8>, on: seq<bv8>, f: nat, n: nat)
    requires f / 8 < |s| && n <= 8 * |s| && on == s[f / 8 := s[f / 8] | Bit(f % 8)]
    ensures FreeUpTo(on, n) == FreeUpTo(s, n) - {f}
  {
    var c := s[f / 8] | Bit(f % 8);
    forall g: nat | g < n ensures FreeIn(on, g) <==> FreeIn(s, g) && g != f {
      BitOn(s, on, f / 8, c, f % 8, g / 8, g % 8);
      SameBit(f, g);
    }
    FreeAfter(s, on, f, n, false);
  }

  /** Clearing it puts it back. */
  lemma ClearByte(s: seq<bv8>, off: seq<bv8>, f: nat, n: nat)
    requires f / 8 < |s| && n <= 8 * |s| && off == s[f / 8 := s[f / 8] & !Bit(f % 8)]
    ensures FreeUpTo(off, n) == FreeUpTo(s, n) + (if f < n then {f} else {})
  {
    var c := s[f / 8] & !Bit(f % 8);
    forall g: nat | g < n ensures FreeIn(off, g) <==> FreeIn(s, g) || g == f {
      BitOff(s, off, f / 8, c, f % 8, g / 8, g % 8);
      SameBit(f, g);
    }
    FreeAfter(s, off, f, n, true);
  }

  /** Frames [s, s+count) all belong to `free`. */
  ghost predicate FreeRun(free: set<nat>, s: nat, count: nat) {
    forall f :: s <= f < s + count ==> f in free
  }

  /** Frames [a, f) are free and frame a-1, if any, is not. */
  ghost predicate RunBefore(free: set<nat>, a: nat, f: nat) {
    (forall g: nat :: a <= g < f ==> g in free) && (a > 0 ==> a - 1 !in free)
  }

  /** No run of `count` free frames ends at or before `f`. */
  ghost predicate NoRunYet(free: set<nat>, count: nat, f: nat) {
    forall s: nat :: s + count <= f ==> !FreeRun(free, s, count)
  }

  lemma RunGrows(free: set<nat>, a: nat, f: nat, count: nat)
    requires RunBefore(free, a, f) && a <= f && f in free && f + 1 - a < count && NoRunYet(free, count, f)
    ensures RunBefore(free, a, f + 1) && NoRunYet(free, count, f + 1)
  {
    forall s: nat | s + count == f + 1 ensures !FreeRun(free, s, count) {
      assert s <= a - 1 < s + count;
    }
  }

  lemma RunFound(free: set<nat>, a: nat, f: nat, count: nat)
    requires RunBefore(free, a, f) && a <= f && f in free && f + 1 == a + count && NoRunYet(free, count, f)
    ensures FreeRun(free, a, count) && forall s: nat :: s < a ==> !FreeRun(free, s, count)
  {
  }

  lemma RunBreaks(free: set<nat>, f: nat, count: nat)
    requires f !in free && count > 0 && NoRunYet(free, count, f)
    ensures RunBefore(free, f + 1, f + 1) && NoRunYet(free, count, f + 1)
  {
    forall s: nat | s + count == f + 1 ensures !FreeRun(free, s, count) {
      assert s <= f < s + count;
    }
  }

  predicate InRun(f: nat, s: nat, count: nat) {
    s <= f < s + count
  }

  /** The frames of the run [s, s+count). */
  function Range(s: nat, count: nat): set<nat> {
    set f: nat | f < s + count && InRun(f, s, count)
  }

  class FrameBitmap {
    const bits: array<bv8>
    // Highest frame index that came from a usable region.
    var last: nat

    ghost predicate Valid()
      reads this
    {
      bits.Length == BITMAP_BYTES && last < FRAME_COUNT
    }

    ghost function Free(): (r: set<nat>)
      requires Valid()
      reads this, bits
      ensures forall f :: f in r ==> f < FRAME_COUNT
    {
      FreeUpTo(bits[..], 8 * bits.Length)
    }

    /** Boot state before the memory map is read: every frame in use. */
    constructor (last: nat)
      requires last < FRAME_COUNT
      ensures Valid() && fresh(bits) && this.last == last
      ensures Free() == {}
    {
      bits := new bv8[BITMAP_BYTES](_ => 0xFF);
      this.last := last;
      new;
      NoneFree(bits[..], 8 * bits.Length);
    }

    method SetFrame(f: nat)
      requires Valid() && f < FRAME_COUNT
      modifies bits
      ensures Free() == old(Free()) - {f}
    {
      ghost var s := bits[..];
      bits[f / 8] := bits[f / 8] | Bit(f % 8);
      SetByte(s, bits[..], f, 8 * |s|);
    }

    method ClearFrame(f: nat)
      requires Valid() && f < FRAME_COUNT
      modifies bits
      ensures Free() == old(Free()) + {f}
    {
      ghost var s := bits[..];
      bits[f / 8] := bits[f / 8] & !Bit(f % 8);
      ClearByte(s, bits[..], f, 8 * |s|);
    }

    /** First fit: the lowest free frame up to `last`, or None exactly when
        there is none. */
    method FrameAlloc() returns (r: Option<nat>)
      requires Valid()
      modifies bits
      ensures r.None? <==> forall f: nat :: f in old(Free()) ==> f > last
      ensures r.None? ==> Free() == old(Free())
      ensures r.Some? ==>
                && r.value in old(Free()) && r.value <= last
                && (forall f: nat :: f in old(Free()) ==> r.value <= f)
                && Free() == old(Free()) - {r.value}
    {
      ghost var free := Free();
      r := FindFrame();
      assert Free() == free;
      if r.Some? {
        SetFrame(r.value);
      }
    }

    method FindFrame() returns (r: Option<nat>)
      requires Valid()
      ensures r.None? <==> forall f: nat :: f in Free() ==> f > last
      ensures r.Some? ==> r.value in Free() && r.value <= last && forall f: nat :: f in Free() ==> r.value <= f
    {
      ghost var free := Free();
      var f: nat := 0;
      while f <= last
        invariant f <= last + 1 && forall g: nat :: g < f ==> g !in free
      {
        var here := TestFrame(f);
        if here {
          return Some(f);
        }
        f := f + 1;
      }
      r := None;
    }

    method TestFrame(f: nat) returns (r: bool)
      requires Valid() && f < FRAME_COUNT
      ensures r <==> f in Free()
    {
      FreeHas(bits[..], 8 * bits.Length, f);
      r := bits[f / 8] & Bit(f % 8) == 0;
    }

    /** First fit for `count` adjacent frames: the lowest such run up to
        `last` is taken, nothing else changes, and None is returned exactly
        when no run exists (or none was asked for). */
    method AllocContiguous(count: nat) returns (r: Option<nat>)
      requires Valid()
      modifies bits
      ensures r.None? <==> count == 0 || forall s: nat :: s + count <= last + 1 ==> !FreeRun(old(Free()), s, count)
      ensures r.None? ==> Free() == old(Free())
      ensures r.Some? ==>
                && count > 0 && r.value + count <= last + 1
                && FreeRun(old(Free()), r.value, count)
                && (forall s: nat :: s < r.value ==> !FreeRun(old(Free()), s, count))
                && Free() == old(Free()) - Range(r.value, count)
    {
      ghost var free := Free();
      r := FindRun(count);
      assert Free() == free;
      if r.Some? {
        TakeRun(r.value, count);
      }
    }

    /** The scan with its `run_start` and `run_len`. */
    method FindRun(count: nat) returns (r: Option<nat>)
      requires Valid()
      ensures r.None? <==> count == 0 || forall s: nat :: s + count <= last + 1 ==> !FreeRun(Free(), s, count)
      ensures r.Some? ==> count > 0 && r.value + count <= last + 1 && FreeRun(Free(), r.value, count)
      ensures r.Some? ==> forall s: nat :: s < r.value ==> !FreeRun(Free(), s, count)
    {
      if count == 0 || count - 1 > last {
        return None;
      }
      ghost var free := Free();
      var runStart: nat, runLen: nat, f: nat := 0, 0, 0;
      while f <= last
        invariant f <= last + 1 && runLen < count && runLen <= f
        invariant runLen > 0 ==> runStart == f - runLen
        invariant RunBefore(free, f - runLen, f)
        invariant NoRunYet(free, count, f)
      {
        var here := TestFrame(f);
        if here {
          if runLen == 0 {
            runStart := f;
          }
          runLen := runLen + 1;
          if runLen == count {
            RunFound(free, runStart, f, count);
            return Some(runStart);
          }
          RunGrows(free, runStart, f, count);
        } else {
          runLen := 0;
          RunBreaks(free, f, count);
        }
        f := f + 1;
      }
      r := None;
    }

    /** The inner `for f in run_start..run_start + count` loop. */
    method TakeRun(s: nat, count: nat)
      requires Valid() && s + count <= FRAME_COUNT
      modifies bits
      ensures Free() == old(Free()) - Range(s, count)
    {
      var i := 0;
      while i < count
        invariant i <= count
        invariant Free() == old(Free()) - Range(s, i)
      {
        SetFrame(s + i);
        forall f: nat ensures f in Range(s, i + 1) <==> f in Range(s, i) || f == s + i {
          assert InRun(f, s, i + 1) <==> InRun(f, s, i) || f == s + i;
        }
        i := i + 1;
      }
    }

    /** Releases the frame at physical address `phys`; a misaligned or
        out-of-range address is ignored. */
    method FrameFree(phys: nat)
      requires Valid()
      modifies bits
      ensures Free() == old(Free()) +
                        (if phys % FRAME_SIZE != 0 || phys >= FRAME_COUNT * FRAME_SIZE then {} else {phys / FRAME_SIZE})
    {
      if phys % FRAME_SIZE != 0 || phys >= FRAME_COUNT * FRAME_SIZE {
        return;
      }
      ClearFrame(phys / FRAME_SIZE);
    }

    /** Marks every frame that [base, base + len) touches as in use. */
    method MarkReserved(base: nat, len: nat)
      requires Valid()
      modifies bits
      ensures Free() == old(Free()) - Touched(base, len)
    {
      if len != 0 {
        var end := if base + len > FRAME_COUNT * FRAME_SIZE then FRAME_COUNT * FRAME_SIZE else AlignUp(base + len, FRAME_SIZE);
        ghost var first := base / FRAME_SIZE;
        var frame: nat := base / FRAME_SIZE;
        assert Between(first, first) == {};
        while frame * FRAME_SIZE < end
          invariant first <= frame && Free() == old(Free()) - Between(first, frame)
          invariant frame > first ==> (frame - 1) * FRAME_SIZE < end
          decreases end - frame * FRAME_SIZE
        {
          BetweenStep(first, frame, frame + 1);
          SetFrame(frame);
          frame := frame + 1;
        }
        TouchedIs(base, len, end, first, frame);
      }
    }

    /** Frees the frames that lie in the usable regions above 1 MiB, then takes back the
        kernel image and everything below 64 MiB. */
    method Init(regions: seq<Region>, kernelStart: nat, kernelEnd: nat)
      requires Valid() && Free() == {} && kernelStart <= kernelEnd
      modifies this, bits
      ensures Valid()
      ensures Free() == Usable(regions, |regions|) - Touched(kernelStart, kernelEnd - kernelStart) - Touched(0, LOW_RESERVED_END)
      ensures forall f :: f in Free() ==> f <= last
    {
      var lastFrame: nat := 0;
      var i: nat := 0;
      while i < |regions|
        invariant i <= |regions| && Valid() && Free() == Usable(regions, i) && lastFrame < FRAME_COUNT
        invariant forall f :: f in Usable(regions, i) ==> f <= lastFrame
      {
        var r := regions[i];
        if Considered(r) {
          var end := EndFrame(r);
          if end > lastFrame {
            lastFrame := end - 1;
          }
          ReleaseFrames(StartFrame(r), end);
        }
        i := i + 1;
      }
      last := lastFrame;
      MarkReserved(kernelStart, kernelEnd - kernelStart);
      MarkReserved(0, LOW_RESERVED_END);
    }

    method ReleaseFrames(start: nat, end: nat)
      requires Valid() && end <= FRAME_COUNT
      modifies bits
      ensures Free() == old(Free()) + Between(start, end)
    {
      var frame := start;
      assert Between(start, start) == {};
      while frame < end
        invariant start <= frame && (frame <= end || frame == start) && Free() == old(Free()) + Between(start, frame)
      {
        BetweenStep(start, frame, frame + 1);
        ClearFrame(frame);
        frame := frame + 1;
      }
      assert frame > end ==> Between(start, end) == {} && Between(start, frame) == {};
    }
  }

  const LOW_RESERVED_END: nat := 0x400_0000

  /** One entry of the boot memory map. */
  datatype Region = Region(base: nat, length: nat, usable: bool)

  predicate Considered(r: Region) { r.usable && r.base >= 0x10_0000 }

  /** The frames that lie wholly inside a region, within the bitmap. */
  function StartFrame(r: Region): nat { (r.base + FRAME_SIZE - 1) / FRAME_SIZE }

  function EndFrame(r: Region): (e: nat)
    ensures e <= FRAME_COUNT
  {
    if (r.base + r.length) / FRAME_SIZE > FRAME_COUNT then FRAME_COUNT else (r.base + r.length) / FRAME_SIZE
  }

  /** The frames [a, b). */
  ghost function Between(a: nat, b: nat): set<nat> { set f: nat | f < b && NotBelow(f, a) }

  predicate NotBelow(f: nat, a: nat) { a <= f }

  lemma BetweenStep(a: nat, f: nat, f2: nat)
    requires a <= f && f2 == f + 1
    ensures Between(a, f2) == Between(a, f) + {f}
  {
  }

  /** The frames below the bitmap's end that the byte range [base, base + len) touches. */
  ghost function Touched(base: nat, len: nat): set<nat> {
    set f: nat | f < FRAME_COUNT && TouchesFrame(base, len, f)
  }

  predicate TouchesFrame(base: nat, len: nat, f: nat) { f * FRAME_SIZE < base + len && base < f * FRAME_SIZE + FRAME_SIZE && len > 0 }

  lemma TouchedIs(base: nat, len: nat, end: nat, first: nat, frame: nat)
    requires len > 0 && first == base / FRAME_SIZE && first <= frame && frame * FRAME_SIZE >= end && (frame > first ==> (frame - 1) * FRAME_SIZE < end)
    requires end == if base + len > FRAME_COUNT * FRAME_SIZE then FRAME_COUNT * FRAME_SIZE else AlignUp(base + len, FRAME_SIZE)
    ensures Between(first, frame) == Touched(base, len)
  {
    forall f: nat ensures f in Between(first, frame) <==> f in Touched(base, len) {
      assert base < f * FRAME_SIZE + FRAME_SIZE <==> first <= f;
      assert f in Between(first, frame) <==> first <= f && f * FRAME_SIZE < end;
      assert f * FRAME_SIZE < AlignUp(base + len, FRAME_SIZE) <==> f * FRAME_SIZE < base + len;
    }
  }

  /** The frames the first `n` regions of the memory map make usable. */
  ghost function Usable(regions: seq<Region>, n: nat): set<nat>
    requires n <= |regions|
  {
    if n == 0 then {}
    else Usable(regions, n - 1) + (if Considered(regions[n - 1]) then Between(StartFrame(regions[n - 1]), EndFrame(regions[n - 1])) else {})
  }

  predicate Contains(r: Region, f: nat) { r.base <= f * FRAME_SIZE && f * FRAME_SIZE + FRAME_SIZE <= r.base + r.length }

  /** A frame is usable exactly when some usable region above 1 MiB contains all of it. */
  lemma {:induction false} UsableIs(regions: seq<Region>, n: nat, f: nat)
    requires n <= |regions|
    ensures f in Usable(regions, n) <==>
            f < FRAME_COUNT && exists i :: 0 <= i < n && Considered(regions[i]) && Contains(regions[i], f)
  {
    if n > 0 {
      var r := regions[n - 1];
      UsableIs(regions, n - 1, f);
      assert f in Between(StartFrame(r), EndFrame(r)) <==> f < FRAME_COUNT && Contains(r, f);
    }
  }
}
