/** The memory operations of a process (src/process.rs:293-597, 893-1057,
    1373-1401). Each is an exact update of what the process can reach, keeps the
    ownership invariant, and touches nothing that belongs to anyone else. */
module Process {
  import opened Wrappers
  import opened Pmm
  import opened PageTable
  import opened Paging
  import opened ProcessMemory

  // Page numbers: MMAP_BASE, MMAP_CEILING and the bounds of the stack region.
  const MMAP_BASE: nat := 0x4_0000
  const MMAP_CEILING: nat := 0xC_0000
  const STACK_TOP_PAGE: nat := 0x1_0000
  const STACK_PAGES: nat := 8
  const STACK_MAX_PAGES: nat := 256
  const STACK_LOW_PAGE: nat := STACK_TOP_PAGE - STACK_MAX_PAGES

  /** `align_up(x, PAGE_SIZE)`, in pages. */
  function PagesFor(x: nat): (n: nat)
    ensures n * PAGE_SIZE < x + PAGE_SIZE && x <= n * PAGE_SIZE
  {
    (x + PAGE_SIZE - 1) / PAGE_SIZE
  }

  function Max(a: nat, b: nat): nat { if a < b then b else a }

  /** The pages of a byte range: the first, how many, and the end. */
  function FirstPage(addr: nat): nat { addr / PAGE_SIZE }
  function PageCount(len: nat): nat { PagesFor(Max(len, 1)) }
  function EndPage(addr: nat, len: nat): nat { FirstPage(addr) + PageCount(len) }

  /** PAGE_PRESENT | PAGE_USER, plus WRITABLE and NX as asked. */
  function UserPerm(writable: bool, executable: bool): Perm { Perm(writable, true, !executable) }

  /** The frame the first recorded range covering page `q` puts there. */
  function Lookup(maps: seq<Mapping>, q: nat): Option<nat> {
    if maps == [] then None
    else if Covers(maps[0], q) then Some(maps[0].f + (q - maps[0].v))
    else Lookup(maps[1..], q)
  }

  lemma LookupFirst(maps: seq<Mapping>, q: nat) returns (a: nat)
    requires Lookup(maps, q).Some?
    ensures a < |maps| && Covers(maps[a], q) && Lookup(maps, q).value == maps[a].f + (q - maps[a].v)
  {
    if Covers(maps[0], q) {
      a := 0;
    } else {
      a := LookupFirst(maps[1..], q);
      a := a + 1;
    }
  }

  /** `frames.retain`: the frames outside [f, f+n), in order. */
  function Retain(frames: seq<nat>, f: nat, n: nat): (r: seq<nat>)
    ensures forall x :: x in r <==> x in frames && !InRun(x, f, n)
    ensures Distinct(frames) ==> Distinct(r)
  {
    if frames == [] then []
    else
      var rest := Retain(frames[..|frames| - 1], f, n);
      var x := frames[|frames| - 1];
      if InRun(x, f, n) then rest else rest + [x]
  }

  /** The recorded range lies wholly inside pages [s, e). */
  predicate Inside(r: Mapping, s: nat, e: nat) { s <= r.v && r.v + r.n <= e }

  /** The ranges `munmap` of [s, e) leaves recorded, in order. */
  function Keep(maps: seq<Mapping>, s: nat, e: nat): seq<Mapping> {
    if maps == [] then []
    else
      var rest := Keep(maps[..|maps| - 1], s, e);
      if Inside(maps[|maps| - 1], s, e) then rest else rest + [maps[|maps| - 1]]
  }

  /** Exactly the ranges not wholly inside are kept. */
  lemma {:induction false} KeepIs(maps: seq<Mapping>, s: nat, e: nat, r: Mapping)
    ensures r in Keep(maps, s, e) <==> r in maps && !Inside(r, s, e)
    decreases |maps|
  {
    if maps != [] {
      KeepIs(maps[..|maps| - 1], s, e, r);
      assert maps == maps[..|maps| - 1] + [maps[|maps| - 1]];
    }
  }

  /** The frames `munmap` of [s, e) leaves with the process: those of every dropped
      private range are taken out. */
  function KeepFrames(frames: seq<nat>, maps: seq<Mapping>, s: nat, e: nat): seq<nat>
    decreases |maps|
  {
    if maps == [] then frames
    else
      var rest, r := KeepFrames(frames, maps[..|maps| - 1], s, e), maps[|maps| - 1];
      if Inside(r, s, e) && r.shm.None? then Retain(rest, r.f, r.n) else rest
  }

  /** The frames it gives back. */
  ghost function FreedBy(maps: seq<Mapping>, s: nat, e: nat): set<nat>
    decreases |maps|
  {
    if maps == [] then {}
    else
      var r := maps[|maps| - 1];
      FreedBy(maps[..|maps| - 1], s, e) + (if Inside(r, s, e) && r.shm.None? then Range(r.f, r.n) else {})
  }

  /** A frame is given back exactly when it belongs to a dropped private range. */
  lemma {:induction false} FreedByIs(maps: seq<Mapping>, s: nat, e: nat, x: nat)
    ensures x in FreedBy(maps, s, e) <==> exists a :: 0 <= a < |maps| && Inside(maps[a], s, e) && maps[a].shm.None? && x in Range(maps[a].f, maps[a].n)
    decreases |maps|
  {
    if maps != [] {
      var n := |maps| - 1;
      FreedByIs(maps[..n], s, e, x);
      assert forall a :: 0 <= a < n ==> maps[..n][a] == maps[a];
    }
  }

  /** Page `q` lies in one of the ranges `munmap` of [s, e) drops. */
  ghost predicate Dropped(maps: seq<Mapping>, s: nat, e: nat, q: nat) {
    exists a :: 0 <= a < |maps| && Inside(maps[a], s, e) && Covers(maps[a], q)
  }

  /** Every page of the first `j` ranges that lie inside [s, e) is gone; the others
      translate as before. */
  ghost predicate DroppedFrom(w: Words, w2: Words, root: nat, maps: seq<Mapping>, s: nat, e: nat) {
    forall q: nat :: q < ALL_PAGES ==> Walk(w2, root, q) == if Dropped(maps, s, e, q) then None else Walk(w, root, q)
  }

  /** Outcome of mapping range `r`: its first `k` pages are mapped; the range is
      recorded exactly on success, and then all of it is mapped. Placed clear of the
      recorded ranges, it keeps them in agreement with the page table. */
  ghost predicate RangeMapped(w: Words, m: Memory, w2: Words, m2: Memory, r: Mapping, k: nat, perm: Perm, ok: bool) {
    && Mapped(w, w2, m.root, r.v, r.f, k, perm) && k <= r.n
    && (ok <==> 0 < k == r.n) && (ok ==> r.v + r.n <= PAGES)
    && m2.maps == (if ok then m.maps + [r] else m.maps)
    && (Agrees(w, m) && Clear(m, r.v, r.n) ==> Agrees(w2, m2))
  }

  lemma LocalRefl(w: Words, free: set<nat>, m: Memory)
    requires free !! SetOf(m.frames) && m.role.Keys <= SetOf(m.frames)
    ensures Local(w, free, m, w, free, m)
  {
  }

  lemma LocalSame(w: Words, free: set<nat>, m: Memory, w2: Words)
    requires free !! SetOf(m.frames) && m.role.Keys <= SetOf(m.frames) && SameOutside(w, w2, m.role.Keys)
    ensures Local(w, free, m, w2, free, m)
  {
  }

  lemma LocalTrans(w: Words, f: set<nat>, m: Memory, w2: Words, f2: set<nat>, m2: Memory, w3: Words, f3: set<nat>, m3: Memory)
    requires Local(w, f, m, w2, f2, m2) && Local(w2, f2, m2, w3, f3, m3) && f !! SetOf(m.frames)
    ensures Local(w, f, m, w3, f3, m3)
  {
    forall x | x in SetOf(m3.frames) - SetOf(m.frames) ensures x in f {
      if x in SetOf(m2.frames) {
        assert x in SetOf(m2.frames) - SetOf(m.frames);
      } else {
        assert x in SetOf(m3.frames) - SetOf(m2.frames);
      }
    }
    assert f3 == f - SetOf(m3.frames) + (SetOf(m.frames) - SetOf(m3.frames));
    forall g, k | g !in m3.role.Keys ensures Rd(w3, g, k) == Rd(w, g, k) {
      assert Rd(w3, g, k) == Rd(w2, g, k);
    }
  }

  /** Where a process's stack, heap and mmap arena stand. */
  datatype Bounds = Bounds(stackBase: nat, stackLow: nat, heapStart: nat, heapEnd: nat, mmapNext: nat)

  /** A process as the process table holds it. */
  datatype Saved = Saved(root: nat, frames: seq<nat>, maps: seq<Mapping>, bounds: Bounds)

  class Proc {
    const root: nat
    ghost var role: Roles
    var frames: seq<nat>
    var maps: seq<Mapping>
    var stackLow: nat   // lowest stack page mapped for ring 3
    var stackBase: nat  // first frame of the stack's backing
    var heapStart: nat  // first page of the heap
    var heapEnd: nat    // the program break, a byte address
    var mmapNext: nat   // next page the mmap arena hands out

    ghost function Mem(): Memory
      reads this
    {
      Memory(root, role, frames, maps)
    }

    ghost function Edges(): Bounds
      reads this
    {
      Bounds(stackBase, stackLow, heapStart, heapEnd, mmapNext)
    }

    ghost predicate Ok(pt: PageTables, live: set<nat>)
      reads this, pt, pt.pmm, pt.pmm.bits
    {
      && pt.Valid() && Owns(pt.words, Mem(), live)
      && pt.pmm.Free() !! SetOf(frames) && pt.pmm.Free() !! live && live !! SetOf(frames)
    }

    constructor (root: nat, ghost role: Roles, frames: seq<nat>, heapStart: nat)
      ensures this.root == root && this.role == role && this.frames == frames && maps == []
      ensures stackLow == STACK_TOP_PAGE - STACK_PAGES && mmapNext == MMAP_BASE
      ensures this.heapStart == heapStart && heapEnd == heapStart * PAGE_SIZE
    {
      this.root, this.role, this.frames, this.maps := root, role, frames, [];
      stackLow, stackBase := STACK_TOP_PAGE - STACK_PAGES, 0;
      this.heapStart, heapEnd, mmapNext := heapStart, heapStart * PAGE_SIZE, MMAP_BASE;
    }

    constructor Restore(v: Saved, ghost role: Roles)
      ensures Mem() == Memory(v.root, role, v.frames, v.maps) && Edges() == v.bounds && Save() == v
    {
      root, this.role, frames, maps := v.root, role, v.frames, v.maps;
      stackBase, stackLow, heapStart, heapEnd, mmapNext :=
        v.bounds.stackBase, v.bounds.stackLow, v.bounds.heapStart, v.bounds.heapEnd, v.bounds.mmapNext;
    }

    function Save(): Saved
      reads this
    {
      Saved(root, frames, maps, Bounds(stackBase, stackLow, heapStart, heapEnd, mmapNext))
    }

    /** `for i in 0..pages { frames.push(phys + i * FRAME_SIZE) }` */
    method PushFrames(f: nat, n: nat)
      modifies `frames
      ensures frames == old(frames) + Run(f, n)
    {
      var i := 0;
      while i < n
        invariant i <= n && frames == old(frames) + Run(f, i)
      {
        frames := frames + [f + i];
        i := i + 1;
      }
    }

    /** Maps `n` pages from `v` on to freshly allocated frames and records the
        range: the common body of `brk` and `mmap`. When the page tables cannot be
        completed only `k` pages are mapped, nothing is recorded, and the frames
        stay with the process. */
    method MapFresh(pt: PageTables, v: nat, n: nat, perm: Perm, ghost live: set<nat>)
      returns (ok: bool, ghost f: nat, ghost k: nat)
      requires Ok(pt, live)
      modifies this`frames, this`maps, this`role, pt, pt.pmm.bits
      ensures Ok(pt, live)
      ensures Local(old(pt.words), old(pt.pmm.Free()), old(Mem()), pt.words, pt.pmm.Free(), Mem())
      ensures RangeMapped(old(pt.words), old(Mem()), pt.words, Mem(), Mapping(v, f, n, None), k, perm, ok)
      ensures ok || k > 0 ==> Range(f, n) <= old(pt.pmm.Free())
    {
      f, k := 0, 0;
      ghost var w0, free0, m0 := pt.words, pt.pmm.Free(), Mem();
      LocalRefl(w0, free0, m0);
      var run := pt.pmm.AllocContiguous(n);
      if run.None? {
        return false, f, k;
      }
      f := run.value;
      RunInRange(free0, f, n);
      TakeKeeps(w0, m0, live, free0, f, n);
      PushFrames(run.value, n);
      ghost var added, role2;
      ok, added, role2, k := MapAndRecord(pt, Mapping(v, run.value, n, None), perm);
      ghost var m2 := FreshStep(w0, m0, pt.words, live, free0, pt.pmm.Free(), role2, added, v, f, n, k, perm, ok);
      assert Mem() == m2;
    }

    /** Maps `n` pages from `v` on to the frames from `f` on and keeps the table
        frames this takes. */
    method MapOwn(pt: PageTables, v: nat, f: nat, n: nat, perm: Perm)
      returns (ok: bool, ghost added: seq<nat>, ghost role2: Roles, ghost k: nat)
      requires pt.Valid() && Tree(pt.words, root, role) && role.Keys !! pt.pmm.Free()
      modifies this`frames, this`role, pt, pt.pmm.bits
      ensures Grown(old(pt.words), pt.words, root, old(role), role2, old(pt.pmm.Free()), pt.pmm.Free(), added)
      ensures Mapped(old(pt.words), pt.words, root, v, f, k, perm) && AllSplit(pt.words, root, v, k)
      ensures k <= n && (k > 0 ==> v + k <= PAGES) && (ok <==> 0 < k == n)
      ensures AllSplit(old(pt.words), root, v, n) && 0 < n && v + n <= PAGES ==>
                ok && added == [] && role2 == old(role) && pt.pmm.Free() == old(pt.pmm.Free())
      ensures Mem() == Memory(root, role2, old(frames) + added, old(maps))
    {
      var more;
      ok, more, role2, k := pt.MapAt(root, v, f, n, perm, role);
      frames, role, added := frames + more, role2, more;
    }

    /** Maps range `r` and records it if all of it could be mapped. */
    method MapAndRecord(pt: PageTables, r: Mapping, perm: Perm)
      returns (ok: bool, ghost added: seq<nat>, ghost role2: Roles, ghost k: nat)
      requires pt.Valid() && Tree(pt.words, root, role) && role.Keys !! pt.pmm.Free()
      modifies this`frames, this`maps, this`role, pt, pt.pmm.bits
      ensures Grown(old(pt.words), pt.words, root, old(role), role2, old(pt.pmm.Free()), pt.pmm.Free(), added)
      ensures Mapped(old(pt.words), pt.words, root, r.v, r.f, k, perm) && AllSplit(pt.words, root, r.v, k)
      ensures k <= r.n && (k > 0 ==> r.v + k <= PAGES) && (ok <==> 0 < k == r.n)
      ensures AllSplit(old(pt.words), root, r.v, r.n) && 0 < r.n && r.v + r.n <= PAGES ==> ok
      ensures Mem() == Memory(root, role2, old(frames) + added, if ok then old(maps) + [r] else old(maps))
    {
      ok, added, role2, k := MapOwn(pt, r.v, r.f, r.n, perm);
      if ok {
        maps := maps + [r];
      }
    }

    /** Allocating, mapping and recording a fresh range, on values. */
    static lemma FreshStep(w: Words, m: Memory, w2: Words, live: set<nat>, free: set<nat>, free2: set<nat>, role2: Roles,
                           added: seq<nat>, v: nat, f: nat, n: nat, k: nat, perm: Perm, ok: bool)
      returns (m2: Memory)
      requires Owns(w, m, live) && free !! SetOf(m.frames) && free !! live && live !! SetOf(m.frames) && (forall x :: x in free ==> x < FRAME_COUNT)
      requires Range(f, n) <= free && f + n <= FRAME_COUNT
      requires Grown(w, w2, m.root, m.role, role2, free - Range(f, n), free2, added)
      requires Mapped(w, w2, m.root, v, f, k, perm) && k <= n
      requires k > 0 ==> v + k <= PAGES
      requires (ok <==> 0 < k == n) && (ok ==> AllSplit(w2, m.root, v, n))
      ensures m2 == Memory(m.root, role2, m.frames + Run(f, n) + added, if ok then m.maps + [Mapping(v, f, n, None)] else m.maps)
      ensures Owns(w2, m2, live) && Local(w, free, m, w2, free2, m2) && free2 !! SetOf(m2.frames) && live !! SetOf(m2.frames)
      ensures RangeMapped(w, m, w2, m2, Mapping(v, f, n, None), k, perm, ok)
    {
      TakeKeeps(w, m, live, free, f, n);
      var m1 := m.(frames := m.frames + Run(f, n));
      FreshBacked(w, m, m1, live, free, v, f, n);
      MapKeeps(w, w2, m1, live, free - Range(f, n), free2, role2, added, v, f, k, perm);
      m2 := m1.(role := role2, frames := m1.frames + added);
      LocalTrans(w, free, m, w, free - Range(f, n), m1, w2, free2, m2);
      assert SetOf(m2.frames) == SetOf(m1.frames) + SetOf(added) by { SetOfConcat(m1.frames, added); }
      if ok {
        FreshRecord(w, m, w2, m2, live, free, v, f, n);
        m2 := m2.(maps := m.maps + [Mapping(v, f, n, None)]);
      }
      RangeAgrees(w, m, w2, m2, Mapping(v, f, n, None), k, ok);
    }

    static lemma RunInRange(free: set<nat>, f: nat, n: nat)
      requires FreeRun(free, f, n)
      ensures Range(f, n) <= free
    {
      forall x | x in Range(f, n) ensures x in free {
        assert InRun(x, f, n);
      }
    }

    static lemma FreshBacked(w: Words, m0: Memory, m1: Memory, live: set<nat>, free: set<nat>, v: nat, f: nat, n: nat)
      requires Owns(w, m0, live) && free !! SetOf(m0.frames) && Range(f, n) <= free
      requires m1.maps == m0.maps && Data(m1) == Data(m0) + Range(f, n)
      ensures forall q: nat, x: nat :: v <= q < v + n && x == f + (q - v) ==> Backed(m1, live, q, x)
    {
      forall q: nat, x: nat | v <= q < v + n && x == f + (q - v) ensures Backed(m1, live, q, x) {
        assert InRun(x, f, n) && x in Range(f, n);
        forall a | 0 <= a < |m1.maps| ensures InPlace(m1.maps[a], q, x) {
          assert RecordOk(w, m0, live, m0.maps[a]);
        }
      }
    }

    /** The `n` pages from `v` on translate to the frames from `f` on, with whatever
        permissions; every other page translates as before. */
    static ghost predicate Placed(w: Words, w2: Words, root: nat, v: nat, f: nat, n: nat) {
      forall q: nat :: q < ALL_PAGES ==>
        if v <= q < v + n then Walk(w2, root, q).Some? && FrameOf(w2, root, q) == f + (q - v)
        else Walk(w2, root, q) == Walk(w, root, q)
    }

    static lemma FreshRecord(w: Words, m0: Memory, w2: Words, m2: Memory, live: set<nat>, free: set<nat>, v: nat, f: nat, n: nat)
      requires Owns(w, m0, live) && free !! SetOf(m0.frames) && free !! live && Range(f, n) <= free
      requires Owns(w2, m2, live) && m2.maps == m0.maps && m2.root == m0.root && Range(f, n) <= Data(m2)
      requires n > 0 && v + n <= PAGES && AllSplit(w2, m2.root, v, n) && Placed(w, w2, m0.root, v, f, n)
      ensures Owns(w2, m2.(maps := m2.maps + [Mapping(v, f, n, None)]), live)
    {
      var r := Mapping(v, f, n, None);
      forall a | 0 <= a < |m2.maps| ensures Apart(m2.maps[a], r) {
        assert RecordOk(w, m0, live, m0.maps[a]);
      }
      forall q | 0 <= q < ALL_PAGES && UserPage(w2, m2.root, q) ensures InPlace(r, q, FrameOf(w2, m2.root, q)) {
        if !(v <= q < v + n) {
          assert UserPage(w, m0.root, q) && Backed(m0, live, q, FrameOf(w, m0.root, q));
        }
      }
      RecordKeeps(w2, m2, live, r);
    }

    static lemma RangeAgrees(w: Words, m0: Memory, w2: Words, m2: Memory, r: Mapping, k: nat, ok: bool)
      requires m2.root == m0.root && k <= r.n && Placed(w, w2, m0.root, r.v, r.f, k)
      requires m2.maps == if ok then m0.maps + [r] else m0.maps
      requires ok ==> k == r.n
      requires forall a :: 0 <= a < |m0.maps| ==> m0.maps[a].v + m0.maps[a].n <= PAGES
      requires k > 0 ==> r.v + k <= PAGES
      ensures Agrees(w, m0) && Clear(m0, r.v, r.n) ==> Agrees(w2, m2)
    {
      if Agrees(w, m0) && Clear(m0, r.v, r.n) {
        forall a, q: nat | 0 <= a < |m2.maps| && Covers(m2.maps[a], q) && UserPage(w2, m2.root, q)
          ensures FrameOf(w2, m2.root, q) == m2.maps[a].f + (q - m2.maps[a].v)
        {
          if a < |m0.maps| {
            assert m2.maps[a] == m0.maps[a] && Covers(m0.maps[a], q);
            assert !(r.v <= q < r.v + k);
            assert UserPage(w, m0.root, q);
          }
        }
        forall a, b, q: nat | 0 <= a < b < |m2.maps| && Covers(m2.maps[a], q) ensures !Covers(m2.maps[b], q) {
          assert m2.maps[a] == m0.maps[a];
          assert b < |m0.maps| ==> m2.maps[b] == m0.maps[b];
        }
      }
    }

    /** Linux `brk`. A request below the heap only queries; otherwise the whole
        pages the request needs beyond those already mapped are mapped writable and
        not executable, and the break moves exactly when they all could be. */
    method Brk(pt: PageTables, requested: nat, ghost live: set<nat>)
      returns (r: nat, ghost v: nat, ghost n: nat, ghost f: nat, ghost k: nat, ghost ok: bool)
      requires Ok(pt, live) && heapEnd >= heapStart * PAGE_SIZE
      modifies this`frames, this`maps, this`role, this`heapEnd, pt, pt.pmm.bits
      ensures Ok(pt, live) && r == heapEnd >= heapStart * PAGE_SIZE
      ensures Local(old(pt.words), old(pt.pmm.Free()), old(Mem()), pt.words, pt.pmm.Free(), Mem())
      ensures r == if requested >= heapStart * PAGE_SIZE && ok then requested else old(heapEnd)
      ensures v == heapStart + PagesFor(old(heapEnd) - heapStart * PAGE_SIZE) && n == NeedsPages(heapStart, old(heapEnd), requested)
      ensures n == 0 ==> ok && pt.words == old(pt.words) && Mem() == old(Mem())
      ensures n > 0 ==> RangeMapped(old(pt.words), old(Mem()), pt.words, Mem(), Mapping(v, f, n, None), k, UserPerm(true, false), ok)
      ensures k > 0 ==> Range(f, n) <= old(pt.pmm.Free())
    {
      f, k, ok := 0, 0, true;
      var first, count := heapStart + PagesFor(heapEnd - heapStart * PAGE_SIZE), NeedsPages(heapStart, heapEnd, requested);
      v, n := first, count;
      r := heapEnd;
      if requested < heapStart * PAGE_SIZE {
        LocalRefl(pt.words, pt.pmm.Free(), Mem());
        return;
      }
      r, f, k, ok := MoveBreak(pt, requested, first, count, live);
    }

    /** Maps the pages the new break needs, if any, then moves it. */
    method MoveBreak(pt: PageTables, requested: nat, first: nat, count: nat, ghost live: set<nat>)
      returns (r: nat, ghost f: nat, ghost k: nat, ghost ok: bool)
      requires Ok(pt, live)
      modifies this`frames, this`maps, this`role, this`heapEnd, pt, pt.pmm.bits
      ensures Ok(pt, live) && r == heapEnd == (if ok then requested else old(heapEnd))
      ensures Local(old(pt.words), old(pt.pmm.Free()), old(Mem()), pt.words, pt.pmm.Free(), Mem())
      ensures count == 0 ==> ok && pt.words == old(pt.words) && Mem() == old(Mem())
      ensures count > 0 ==> RangeMapped(old(pt.words), old(Mem()), pt.words, Mem(), Mapping(first, f, count, None), k, UserPerm(true, false), ok)
      ensures k > 0 ==> Range(f, count) <= old(pt.pmm.Free())
    {
      f, k, ok := 0, 0, true;
      r := heapEnd;
      LocalRefl(pt.words, pt.pmm.Free(), Mem());
      if count > 0 {
        var mapped;
        mapped, f, k := MapFresh(pt, first, count, UserPerm(true, false), live);
        ok := mapped;
        if !mapped {
          return;
        }
      }
      heapEnd := requested;
      r := requested;
    }

    /** Whole pages a break of `requested` needs beyond those a break of `end` has. */
    static function NeedsPages(start: nat, end: nat, requested: nat): nat
      requires end >= start * PAGE_SIZE
    {
      var had := PagesFor(end - start * PAGE_SIZE);
      if requested < start * PAGE_SIZE || PagesFor(requested - start * PAGE_SIZE) <= had then 0
      else PagesFor(requested - start * PAGE_SIZE) - had
    }

    /** The page an `mmap` of `n` pages gets: the one asked for, or the next of the
        arena if it still fits. */
    static function Place(at: Option<nat>, next: nat, n: nat): Option<nat> {
      if at.Some? then Some(at.value / PAGE_SIZE) else if next + n > MMAP_CEILING then None else Some(next)
    }

    /** Private `mmap`. On success the range is fresh frames with exactly the
        permissions asked for, recorded, and the arena moves past it; on failure
        nothing is recorded and the arena stays. */
    method Mmap(pt: PageTables, at: Option<nat>, len: nat, writable: bool, executable: bool, ghost live: set<nat>)
      returns (v: Option<nat>, ghost f: nat, ghost k: nat)
      requires Ok(pt, live)
      modifies this`frames, this`maps, this`role, this`mmapNext, pt, pt.pmm.bits
      ensures Ok(pt, live)
      ensures Local(old(pt.words), old(pt.pmm.Free()), old(Mem()), pt.words, pt.pmm.Free(), Mem())
      ensures var n := PageCount(len);
              var place := Place(at, old(mmapNext), n);
              if place.None? then
                v.None? && pt.words == old(pt.words) && Mem() == old(Mem()) && mmapNext == old(mmapNext)
              else
                && RangeMapped(old(pt.words), old(Mem()), pt.words, Mem(), Mapping(place.value, f, n, None), k,
                                 UserPerm(writable, executable), v.Some?)
                && (v.Some? ==> v == place) && (v.Some? || k > 0 ==> Range(f, n) <= old(pt.pmm.Free()))
                && mmapNext == (if v.Some? && at.None? then place.value + n else old(mmapNext))
    {
      f, k := 0, 0;
      LocalRefl(pt.words, pt.pmm.Free(), Mem());
      var n := PageCount(len);
      var place := Place(at, mmapNext, n);
      v := None;
      if place.None? {
        return;
      }
      var ok;
      ok, f, k := MapFresh(pt, place.value, n, UserPerm(writable, executable), live);
      v := if ok then place else None;
      ghost var m2 := Mem();
      mmapNext := if ok && at.None? then place.value + n else mmapNext;
      assert Mem() == m2;
    }

    /** `mmap` of a shared object's existing frames, the run of `n` frames from `f`
        on. No frame changes hands except for page tables. */
    method MmapShared(pt: PageTables, at: Option<nat>, id: nat, f: nat, n: nat, writable: bool, executable: bool, ghost live: set<nat>)
      returns (v: Option<nat>, ghost k: nat)
      requires Ok(pt, live) && Range(f, n) <= live
      modifies this`frames, this`maps, this`role, this`mmapNext, pt, pt.pmm.bits
      ensures Ok(pt, live)
      ensures Local(old(pt.words), old(pt.pmm.Free()), old(Mem()), pt.words, pt.pmm.Free(), Mem())
      ensures var place := Place(at, old(mmapNext), n);
              if n == 0 || place.None? then
                v.None? && pt.words == old(pt.words) && Mem() == old(Mem()) && mmapNext == old(mmapNext)
              else
                && RangeMapped(old(pt.words), old(Mem()), pt.words, Mem(), Mapping(place.value, f, n, Some(id)), k,
                               UserPerm(writable, executable), v.Some?)
                && (v.Some? ==> v == place)
                && (AllSplit(old(pt.words), root, place.value, n) && place.value + n <= PAGES ==> v.Some?)
                && mmapNext == (if v.Some? && at.None? then place.value + n else old(mmapNext))
    {
      k, v := 0, None;
      LocalRefl(pt.words, pt.pmm.Free(), Mem());
      var place := Place(at, mmapNext, n);
      if n == 0 || place.None? {
        return;
      }
      var ok;
      ok, k := MapShared(pt, place.value, f, n, id, UserPerm(writable, executable), live);
      v := if ok then place else None;
      ghost var m2 := Mem();
      mmapNext := if ok && at.None? then place.value + n else mmapNext;
      assert Mem() == m2;
    }

    method MapShared(pt: PageTables, v: nat, f: nat, n: nat, id: nat, perm: Perm, ghost live: set<nat>)
      returns (ok: bool, ghost k: nat)
      requires Ok(pt, live) && Range(f, n) <= live
      modifies this`frames, this`maps, this`role, pt, pt.pmm.bits
      ensures Ok(pt, live)
      ensures Local(old(pt.words), old(pt.pmm.Free()), old(Mem()), pt.words, pt.pmm.Free(), Mem())
      ensures RangeMapped(old(pt.words), old(Mem()), pt.words, Mem(), Mapping(v, f, n, Some(id)), k, perm, ok)
      ensures AllSplit(old(pt.words), root, v, n) && 0 < n && v + n <= PAGES ==> ok
    {
      ghost var w0, free0, m0 := pt.words, pt.pmm.Free(), Mem();
      ghost var added, role2;
      ok, added, role2, k := MapAndRecord(pt, Mapping(v, f, n, Some(id)), perm);
      ghost var m2 := SharedStep(w0, m0, pt.words, live, free0, pt.pmm.Free(), role2, added, v, f, n, id, k, perm, ok);
      assert Mem() == m2;
    }

    static lemma SharedStep(w: Words, m: Memory, w2: Words, live: set<nat>, free: set<nat>, free2: set<nat>, role2: Roles,
                            added: seq<nat>, v: nat, f: nat, n: nat, id: nat, k: nat, perm: Perm, ok: bool)
      returns (m2: Memory)
      requires Owns(w, m, live) && free !! SetOf(m.frames) && free !! live && live !! SetOf(m.frames)
      requires (forall x :: x in free ==> x < FRAME_COUNT) && Range(f, n) <= live
      requires Grown(w, w2, m.root, m.role, role2, free, free2, added)
      requires Mapped(w, w2, m.root, v, f, k, perm) && k <= n && (k > 0 ==> v + k <= PAGES)
      requires (ok <==> 0 < k == n) && (ok ==> AllSplit(w2, m.root, v, n))
      ensures m2 == Memory(m.root, role2, m.frames + added, if ok then m.maps + [Mapping(v, f, n, Some(id))] else m.maps)
      ensures Owns(w2, m2, live) && Local(w, free, m, w2, free2, m2) && free2 !! SetOf(m2.frames) && live !! SetOf(m2.frames)
      ensures RangeMapped(w, m, w2, m2, Mapping(v, f, n, Some(id)), k, perm, ok)
    {
      forall q: nat, x: nat | v <= q < v + k && x == f + (q - v) ensures Backed(m, live, q, x) {
        assert InRun(x, f, n) && x in Range(f, n);
        forall a | 0 <= a < |m.maps| ensures InPlace(m.maps[a], q, x) {
          assert RecordOk(w, m, live, m.maps[a]);
        }
      }
      MapKeeps(w, w2, m, live, free, free2, role2, added, v, f, k, perm);
      m2 := m.(role := role2, frames := m.frames + added);
      SetOfConcat(m.frames, added);
      if ok {
        RecordKeeps(w2, m2, live, Mapping(v, f, n, Some(id)));
        m2 := m2.(maps := m.maps + [Mapping(v, f, n, Some(id))]);
      }
      RangeAgrees(w, m, w2, m2, Mapping(v, f, n, Some(id)), k, ok);
    }

    /** One range dropped by `munmap`: its pages are cleared and, if it is private,
        its frames go back to the allocator. */
    method DropRange(pt: PageTables, i: nat, ghost live: set<nat>)
      requires Ok(pt, live) && i < |maps|
      modifies this`frames, this`maps, pt, pt.pmm.bits
      ensures Ok(pt, live)
      ensures Local(old(pt.words), old(pt.pmm.Free()), old(Mem()), pt.words, pt.pmm.Free(), Mem())
      ensures Unmapped(old(pt.words), pt.words, root, old(maps[i].v), old(maps[i].n))
      ensures Removed(old(pt.pmm.Free()), old(Mem()), pt.pmm.Free(), Mem(), i)
      ensures SplitsKept(old(pt.words), pt.words, root)
      ensures old(Agrees(pt.words, Mem())) ==> Agrees(pt.words, Mem())
    {
      ghost var w0, free0, m0 := pt.words, pt.pmm.Free(), Mem();
      var r := maps[i];
      assert RecordOk(w0, m0, live, r);
      pt.UnmapAt(root, r.v, r.n, role);
      ghost var w1 := pt.words;
      assert pt.pmm.Free() == free0;
      if r.shm.None? {
        assert r.f + r.n <= FRAME_COUNT by { assert InRun(r.f + r.n - 1, r.f, r.n); assert r.f + r.n - 1 in Range(r.f, r.n); }
        FreeFrames(pt, r.f, r.n);
        frames := Retain(frames, r.f, r.n);
      }
      maps := maps[..i] + maps[i + 1..];
      DropStep(w0, pt.words, m0, live, free0, i, frames, pt.pmm.Free());
      assert Mem() == m0.(frames := frames, maps := m0.maps[..i] + m0.maps[i + 1..]);
    }

    static lemma DropStep(w: Words, w2: Words, m: Memory, live: set<nat>, free: set<nat>, i: nat, frames2: seq<nat>, free2: set<nat>)
      requires Owns(w, m, live) && i < |m.maps| && free !! SetOf(m.frames) && free !! live && live !! SetOf(m.frames)
      requires Grown(w, w2, m.root, m.role, m.role, free, free, []) && Unmapped(w, w2, m.root, m.maps[i].v, m.maps[i].n)
      requires var r := m.maps[i];
               if r.shm.None? then frames2 == Retain(m.frames, r.f, r.n) && free2 == free + Range(r.f, r.n)
               else frames2 == m.frames && free2 == free
      ensures var m2 := m.(frames := frames2, maps := m.maps[..i] + m.maps[i + 1..]);
              && Owns(w2, m2, live) && Local(w, free, m, w2, free2, m2)
              && free2 !! SetOf(frames2) && free2 !! live && live !! SetOf(frames2)
              && (Agrees(w, m) ==> Agrees(w2, m2))
    {
      var r := m.maps[i];
      assert RecordOk(w, m, live, r);
      forall x: nat ensures x in frames2 <==> x in m.frames && (r.shm.None? ==> x !in Range(r.f, r.n)) {
        assert x in Range(r.f, r.n) <==> InRun(x, r.f, r.n);
      }
      DropKeeps(w, w2, m, live, i, frames2, free);
      DropAgrees(w, w2, m, m.(frames := frames2, maps := m.maps[..i] + m.maps[i + 1..]), i);
    }

    static lemma DropAgrees(w: Words, w2: Words, m: Memory, m2: Memory, i: nat)
      requires i < |m.maps| && m2.maps == m.maps[..i] + m.maps[i + 1..] && m2.root == m.root
      requires forall a :: 0 <= a < |m.maps| ==> m.maps[a].v + m.maps[a].n <= PAGES
      requires Unmapped(w, w2, m.root, m.maps[i].v, m.maps[i].n)
      ensures Agrees(w, m) ==> Agrees(w2, m2)
    {
      if Agrees(w, m) {
        forall a | 0 <= a < |m2.maps| ensures m2.maps[a] == m.maps[if a < i then a else a + 1] { }
        forall a, q: nat | 0 <= a < |m2.maps| && Covers(m2.maps[a], q) && UserPage(w2, m2.root, q)
          ensures FrameOf(w2, m2.root, q) == m2.maps[a].f + (q - m2.maps[a].v)
        {
          var b := if a < i then a else a + 1;
          assert Covers(m.maps[b], q) && UserPage(w, m.root, q);
        }
        forall a, b, q: nat | 0 <= a < b < |m2.maps| && Covers(m2.maps[a], q) ensures !Covers(m2.maps[b], q) {
          assert Covers(m.maps[if a < i then a else a + 1], q);
        }
      }
    }

    /** `for p in 0..pages { frame_free(phys + p * FRAME_SIZE) }` */
    method FreeFrames(pt: PageTables, f: nat, n: nat)
      requires pt.Valid() && f + n <= FRAME_COUNT
      modifies pt.pmm.bits
      ensures pt.pmm.Free() == old(pt.pmm.Free()) + Range(f, n)
    {
      var i := 0;
      while i < n
        invariant i <= n
        invariant pt.pmm.Free() == old(pt.pmm.Free()) + Range(f, i)
      {
        pt.pmm.FrameFree((f + i) * FRAME_SIZE);
        assert (f + i) * FRAME_SIZE / FRAME_SIZE == f + i;
        forall x: nat ensures x in Range(f, i + 1) <==> x in Range(f, i) || x == f + i {
          assert InRun(x, f, i + 1) <==> InRun(x, f, i) || x == f + i;
        }
        i := i + 1;
      }
    }

    /** Linux `munmap` of the pages of [addr, addr+len): every recorded range wholly
        inside is dropped, its pages cleared, its private frames freed; a range that
        only overlaps is left alone. */
    method Munmap(pt: PageTables, addr: nat, len: nat, ghost live: set<nat>)
      requires Ok(pt, live)
      modifies this`frames, this`maps, pt, pt.pmm.bits
      ensures Ok(pt, live)
      ensures Local(old(pt.words), old(pt.pmm.Free()), old(Mem()), pt.words, pt.pmm.Free(), Mem())
      ensures var s, e := FirstPage(addr), EndPage(addr, len);
              maps == Keep(old(maps), s, e) && DroppedFrom(old(pt.words), pt.words, root, old(maps), s, e)
              && frames == KeepFrames(old(frames), old(maps), s, e) && pt.pmm.Free() == old(pt.pmm.Free()) + FreedBy(old(maps), s, e)
      ensures SplitsKept(old(pt.words), pt.words, root)
      ensures old(Agrees(pt.words, Mem())) ==> Agrees(pt.words, Mem())
    {
      DropInside(pt, FirstPage(addr), EndPage(addr, len), live);
    }

    method DropInside(pt: PageTables, s: nat, e: nat, ghost live: set<nat>)
      requires Ok(pt, live)
      modifies this`frames, this`maps, pt, pt.pmm.bits
      ensures Ok(pt, live)
      ensures Local(old(pt.words), old(pt.pmm.Free()), old(Mem()), pt.words, pt.pmm.Free(), Mem())
      ensures maps == Keep(old(maps), s, e) && DroppedFrom(old(pt.words), pt.words, root, old(maps), s, e)
      ensures frames == KeepFrames(old(frames), old(maps), s, e) && pt.pmm.Free() == old(pt.pmm.Free()) + FreedBy(old(maps), s, e)
      ensures SplitsKept(old(pt.words), pt.words, root)
      ensures old(Agrees(pt.words, Mem())) ==> Agrees(pt.words, Mem())
    {
      ghost var w0, free0, m0 := pt.words, pt.pmm.Free(), Mem();
      LocalRefl(w0, free0, m0);
      var i: nat := 0;
      ghost var j: nat := 0;
      while i < |maps|
        invariant Ok(pt, live) && Scanned(w0, free0, m0, pt.words, pt.pmm.Free(), Mem(), s, e, i, j)
        decreases |maps| - i
      {
        i := DropNext(pt, s, e, i, w0, free0, m0, j, live);
        j := j + 1;
      }
      ScanDone(w0, free0, m0, pt.words, pt.pmm.Free(), Mem(), s, e, i, j);
    }

    static lemma ScanDone(w0: Words, free0: set<nat>, m0: Memory, w: Words, free: set<nat>, m: Memory, s: nat, e: nat, i: nat, j: nat)
      requires Scanned(w0, free0, m0, w, free, m, s, e, i, j) && i >= |m.maps|
      ensures m.maps == Keep(m0.maps, s, e) && DroppedFrom(w0, w, m0.root, m0.maps, s, e)
      ensures m.frames == KeepFrames(m0.frames, m0.maps, s, e) && free == free0 + FreedBy(m0.maps, s, e)
    {
      assert j == |m0.maps|;
      assert m0.maps[..j] == m0.maps && m0.maps[j..] == [];
    }

    /** What `munmap` has done with lists and frames after the first `j` ranges. */
    static ghost predicate ScannedLists(free0: set<nat>, m0: Memory, free: set<nat>, m: Memory, s: nat, e: nat, i: nat, j: nat) {
      && j <= |m0.maps| && i == |Keep(m0.maps[..j], s, e)| && m.maps == Keep(m0.maps[..j], s, e) + m0.maps[j..]
      && m.frames == KeepFrames(m0.frames, m0.maps[..j], s, e) && free == free0 + FreedBy(m0.maps[..j], s, e)
    }

    /** The `munmap` scan has looked at the first `j` of the ranges it started with;
        the first `i` of those still recorded are kept. */
    static ghost predicate Scanned(w0: Words, free0: set<nat>, m0: Memory, w: Words, free: set<nat>, m: Memory,
                                   s: nat, e: nat, i: nat, j: nat) {
      && ScannedLists(free0, m0, free, m, s, e, i, j)
      && Local(w0, free0, m0, w, free, m)
      && DroppedFrom(w0, w, m0.root, m0.maps[..j], s, e)
      && (Agrees(w0, m0) ==> Agrees(w, m))
      && free0 !! SetOf(m0.frames) && SplitsKept(w0, w, m0.root)
    }

    static lemma ListsStep(free0: set<nat>, m0: Memory, free1: set<nat>, m1: Memory, free2: set<nat>, m2: Memory, s: nat, e: nat, i: nat, j: nat, drop: bool)
      requires ScannedLists(free0, m0, free1, m1, s, e, i, j) && i < |m1.maps| && drop == Inside(m1.maps[i], s, e)
      requires if drop then Removed(free1, m1, free2, m2, i) else free2 == free1 && m2 == m1
      ensures j < |m0.maps| && m1.maps[i] == m0.maps[j] && ScannedLists(free0, m0, free2, m2, s, e, if drop then i else i + 1, j + 1)
    {
      FramesStep(m0.frames, m0.maps, j, s, e);
      KeptStep(m0.maps, m1.maps, s, e, i, j);
    }

    /** The list after one more range was looked at. */
    static lemma KeptStep(maps: seq<Mapping>, now: seq<Mapping>, s: nat, e: nat, i: nat, j: nat)
      requires j <= |maps| && i == |Keep(maps[..j], s, e)| < |now| && now == Keep(maps[..j], s, e) + maps[j..]
      ensures j < |maps| && now[i] == maps[j]
      ensures Keep(maps[..j + 1], s, e) == if Inside(maps[j], s, e) then Keep(maps[..j], s, e) else Keep(maps[..j], s, e) + [maps[j]]
      ensures now[..i] + now[i + 1..] == Keep(maps[..j], s, e) + maps[j + 1..]
      ensures now == Keep(maps[..j], s, e) + [maps[j]] + maps[j + 1..]
    {
      var kept, rest := Keep(maps[..j], s, e), maps[j..];
      assert maps[..j + 1][..j] == maps[..j];
      assert now[..i] == kept && now[i + 1..] == rest[1..] == maps[j + 1..];
      assert rest == [rest[0]] + rest[1..];
    }

    /** Range `i` is off the list and, if it is private, its frames are given back. */
    static ghost predicate Removed(free: set<nat>, m: Memory, free2: set<nat>, m2: Memory, i: nat)
      requires i < |m.maps|
    {
      var r := m.maps[i];
      && m2.maps == m.maps[..i] + m.maps[i + 1..]
      && m2.frames == (if r.shm.None? then Retain(m.frames, r.f, r.n) else m.frames)
      && free2 == free + (if r.shm.None? then Range(r.f, r.n) else {})
    }

    static lemma ScanStep(w0: Words, free0: set<nat>, m0: Memory, w1: Words, free1: set<nat>, m1: Memory, w2: Words, free2: set<nat>, m2: Memory,
                          s: nat, e: nat, i: nat, j: nat, drop: bool)
      requires Scanned(w0, free0, m0, w1, free1, m1, s, e, i, j) && i < |m1.maps| && drop == Inside(m1.maps[i], s, e)
      requires drop ==> Removed(free1, m1, free2, m2, i) && Unmapped(w1, w2, m0.root, m1.maps[i].v, m1.maps[i].n)
      requires drop ==> Local(w1, free1, m1, w2, free2, m2) && SplitsKept(w1, w2, m0.root) && (Agrees(w1, m1) ==> Agrees(w2, m2))
      requires !drop ==> w2 == w1 && free2 == free1 && m2 == m1
      ensures Scanned(w0, free0, m0, w2, free2, m2, s, e, if drop then i else i + 1, j + 1)
    {
      ListsStep(free0, m0, free1, m1, free2, m2, s, e, i, j, drop);
      if drop {
        LocalTrans(w0, free0, m0, w1, free1, m1, w2, free2, m2);
        PageTables.SplitsKeptTrans(w0, w1, w2, m0.root);
      }
      MunmapStep(w0, w1, w2, m0.root, m0.maps, j, s, e);
    }

    method DropNext(pt: PageTables, s: nat, e: nat, i: nat, ghost w0: Words, ghost free0: set<nat>, ghost m0: Memory, ghost j: nat,
                    ghost live: set<nat>)
      returns (i2: nat)
      requires i < |maps| && Ok(pt, live) && Scanned(w0, free0, m0, pt.words, pt.pmm.Free(), Mem(), s, e, i, j)
      modifies this`frames, this`maps, pt, pt.pmm.bits
      ensures Ok(pt, live) && Scanned(w0, free0, m0, pt.words, pt.pmm.Free(), Mem(), s, e, i2, j + 1)
      ensures |maps| - i2 < old(|maps|) - i
    {
      ghost var w1, free1, m1 := pt.words, pt.pmm.Free(), Mem();
      var drop := maps[i].v >= s && maps[i].v + maps[i].n <= e;
      i2 := if drop then i else i + 1;
      if drop {
        DropRange(pt, i, live);
      }
      ScanStep(w0, free0, m0, w1, free1, m1, pt.words, pt.pmm.Free(), Mem(), s, e, i, j, drop);
    }

    static lemma FramesStep(frames: seq<nat>, maps: seq<Mapping>, j: nat, s: nat, e: nat)
      requires j < |maps|
      ensures var before, r := KeepFrames(frames, maps[..j], s, e), maps[j];
              KeepFrames(frames, maps[..j + 1], s, e) == if Inside(r, s, e) && r.shm.None? then Retain(before, r.f, r.n) else before
      ensures var r := maps[j];
              FreedBy(maps[..j + 1], s, e) == FreedBy(maps[..j], s, e) + if Inside(r, s, e) && r.shm.None? then Range(r.f, r.n) else {}
    {
      assert maps[..j + 1][..j] == maps[..j];
    }

    static lemma MunmapStep(w: Words, w1: Words, w2: Words, root: nat, maps: seq<Mapping>, j: nat, s: nat, e: nat)
      requires j < |maps| && DroppedFrom(w, w1, root, maps[..j], s, e)
      requires if Inside(maps[j], s, e) then Unmapped(w1, w2, root, maps[j].v, maps[j].n) else w2 == w1
      ensures DroppedFrom(w, w2, root, maps[..j + 1], s, e)
      ensures maps[..j + 1][..j] == maps[..j]
      ensures Keep(maps[..j + 1], s, e) == Keep(maps[..j], s, e) + (if Inside(maps[j], s, e) then [] else [maps[j]])
    {
      assert maps[..j + 1][..j] == maps[..j];
      forall q: nat | q < ALL_PAGES
        ensures Walk(w2, root, q) == if Dropped(maps[..j + 1], s, e, q) then None else Walk(w, root, q)
      {
        assert Dropped(maps[..j + 1], s, e, q) <==> Dropped(maps[..j], s, e, q) || (Inside(maps[j], s, e) && Covers(maps[j], q)) by {
          if Dropped(maps[..j], s, e, q) {
            var a :| 0 <= a < j && Inside(maps[..j][a], s, e) && Covers(maps[..j][a], q);
            assert maps[..j + 1][a] == maps[..j][a];
          }
          if Inside(maps[j], s, e) && Covers(maps[j], q) {
            assert maps[..j + 1][j] == maps[j];
          }
          if Dropped(maps[..j + 1], s, e, q) {
            var a :| 0 <= a < j + 1 && Inside(maps[..j + 1][a], s, e) && Covers(maps[..j + 1][a], q);
            if a < j {
              assert maps[..j][a] == maps[..j + 1][a];
            }
          }
        }
      }
    }

    /** Whether every page of [v, v+n) lies in some recorded range. */
    static ghost predicate Recorded(maps: seq<Mapping>, v: nat, n: nat) {
      forall q :: v <= q < v + n ==> Lookup(maps, q).Some?
    }

    /** `mprotect` of `n` pages from `v` on stops after `k` of them. */
    static predicate Stops(maps: seq<Mapping>, v: nat, n: nat, k: nat) { k < n ==> Lookup(maps, v + k).None? }

    /** The first `k` pages from `v` on translate to the frames the recorded ranges
        name, with permissions `perm`; the others as before. */
    static ghost predicate Protected(w: Words, w2: Words, m: Memory, v: nat, k: nat, perm: Perm) {
      && Recorded(m.maps, v, k)
      && forall q: nat :: q < ALL_PAGES ==>
           Walk(w2, m.root, q) == if v <= q < v + k then Some(Page(Lookup(m.maps, q).value, perm.writable, perm.user, perm.nx))
                                  else Walk(w, m.root, q)
    }

    /** Linux `mprotect`: gives the pages the new permissions up to the first one no
        recorded range covers, and succeeds when there is none. It takes no frame. */
    method Mprotect(pt: PageTables, addr: nat, len: nat, writable: bool, executable: bool, ghost live: set<nat>)
      returns (ok: bool, ghost k: nat)
      requires Ok(pt, live)
      modifies this`frames, this`role, pt, pt.pmm.bits
      ensures Ok(pt, live) && Mem() == old(Mem()) && pt.pmm.Free() == old(pt.pmm.Free())
      ensures Local(old(pt.words), old(pt.pmm.Free()), old(Mem()), pt.words, pt.pmm.Free(), Mem())
      ensures var v, n := FirstPage(addr), PageCount(len);
              && k <= n && (ok <==> k == n) && (ok <==> Recorded(old(maps), v, n)) && Stops(old(maps), v, n, k)
              && Protected(old(pt.words), pt.words, old(Mem()), v, k, UserPerm(writable, executable))
      ensures old(Agrees(pt.words, Mem())) ==> Agrees(pt.words, Mem())
    {
      ok, k := ProtectPages(pt, FirstPage(addr), PageCount(len), UserPerm(writable, executable), live);
      LocalSame(old(pt.words), pt.pmm.Free(), Mem(), pt.words);
    }

    method ProtectPages(pt: PageTables, v: nat, n: nat, perm: Perm, ghost live: set<nat>) returns (ok: bool, ghost k: nat)
      requires Ok(pt, live) && perm.user
      modifies this`frames, this`role, pt, pt.pmm.bits
      ensures Ok(pt, live) && Mem() == old(Mem()) && pt.pmm.Free() == old(pt.pmm.Free())
      ensures SameOutside(old(pt.words), pt.words, role.Keys)
      ensures k <= n && (ok <==> k == n) && (ok <==> Recorded(old(maps), v, n)) && Stops(old(maps), v, n, k)
      ensures Protected(old(pt.words), pt.words, old(Mem()), v, k, perm)
      ensures old(Agrees(pt.words, Mem())) ==> Agrees(pt.words, Mem())
    {
      ghost var w0, m0, free0 := pt.words, Mem(), pt.pmm.Free();
      var i := 0;
      k := 0;
      ok := true;
      while i < n
        invariant k == i <= n
        invariant Ok(pt, live) && Mem() == m0 && pt.pmm.Free() == free0
        invariant Protecting(w0, pt.words, m0, v, i, perm)
      {
        var q := v + i;
        var f := Lookup(maps, q);
        if f.None? {
          return false, k;
        }
        ghost var w1 := pt.words;
        ProtectPage(pt, q, f.value, perm, live);
        ProtectStep(w0, w1, pt.words, m0, v, i, q, f.value, perm);
        i, k := i + 1, k + 1;
      }
    }

    static ghost predicate Protecting(w: Words, w2: Words, m: Memory, v: nat, k: nat, perm: Perm) {
      && Protected(w, w2, m, v, k, perm) && SameOutside(w, w2, m.role.Keys)
      && (Agrees(w, m) ==> Agrees(w2, m))
    }

    static lemma ProtectStep(w: Words, w1: Words, w2: Words, m: Memory, v: nat, i: nat, q: nat, f: nat, perm: Perm)
      requires Protecting(w, w1, m, v, i, perm) && q == v + i && Lookup(m.maps, q) == Some(f)
      requires Mapped(w1, w2, m.root, q, f, 1, perm) && SameOutside(w1, w2, m.role.Keys)
      requires Agrees(w1, m) ==> Agrees(w2, m)
      ensures Protecting(w, w2, m, v, i + 1, perm)
    {
      forall g, x | g !in m.role.Keys ensures Rd(w2, g, x) == Rd(w, g, x) {
        assert Rd(w2, g, x) == Rd(w1, g, x);
      }
    }

    /** Rewrites one page in place: no table frame is needed, since every recorded
        page already has its page table. */
    method ProtectPage(pt: PageTables, q: nat, f: nat, perm: Perm, ghost live: set<nat>)
      requires Ok(pt, live) && Lookup(maps, q) == Some(f) && perm.user
      modifies this`frames, this`role, pt, pt.pmm.bits
      ensures Ok(pt, live) && Mem() == old(Mem()) && pt.pmm.Free() == old(pt.pmm.Free())
      ensures SameOutside(old(pt.words), pt.words, role.Keys)
      ensures Mapped(old(pt.words), pt.words, root, q, f, 1, perm)
      ensures old(Agrees(pt.words, Mem())) ==> Agrees(pt.words, Mem())
    {
      ghost var w0, free0, m0 := pt.words, pt.pmm.Free(), Mem();
      ghost var a := LookupFirst(maps, q);
      assert RecordOk(w0, m0, live, maps[a]);
      assert AllSplit(w0, root, q, 1);
      RecordedBacked(w0, m0, live, q, f, a);
      var ok, added, role2, k := MapOwn(pt, q, f, 1, perm);
      assert m0.frames + added == m0.frames;
      MapKeeps(w0, pt.words, m0, live, free0, pt.pmm.Free(), role2, added, q, f, 1, perm);
      ProtectAgrees(w0, pt.words, m0, q, f, a, perm);
    }

    static lemma RecordedBacked(w: Words, m: Memory, live: set<nat>, q: nat, f: nat, a: nat)
      requires Owns(w, m, live) && live !! SetOf(m.frames) && a < |m.maps| && Covers(m.maps[a], q) && f == m.maps[a].f + (q - m.maps[a].v)
      ensures forall p: nat, x: nat :: q <= p < q + 1 && x == f + (p - q) ==> Backed(m, live, p, x)
    {
      var r := m.maps[a];
      assert RecordOk(w, m, live, r);
      assert InRun(f, r.f, r.n) && f in Range(r.f, r.n);
      forall b | 0 <= b < |m.maps| ensures InPlace(m.maps[b], q, f) {
        assert RecordOk(w, m, live, m.maps[b]);
        if a < b {
          assert Apart(m.maps[a], m.maps[b]);
        } else if b < a {
          assert Apart(m.maps[b], m.maps[a]);
        }
      }
    }

    /** Where the ranges agree with the page table, the range found first is the
        only one that matters. */
    static lemma ProtectAgrees(w: Words, w2: Words, m: Memory, q: nat, f: nat, a: nat, perm: Perm)
      requires Mapped(w, w2, m.root, q, f, 1, perm) && a < |m.maps| && Covers(m.maps[a], q) && f == m.maps[a].f + (q - m.maps[a].v)
      requires forall b :: 0 <= b < |m.maps| ==> m.maps[b].v + m.maps[b].n <= PAGES
      ensures Agrees(w, m) ==> Agrees(w2, m)
    {
      if Agrees(w, m) {
        forall b, p: nat | 0 <= b < |m.maps| && Covers(m.maps[b], p) && UserPage(w2, m.root, p)
          ensures FrameOf(w2, m.root, p) == m.maps[b].f + (p - m.maps[b].v)
        {
          if p != q {
            assert UserPage(w, m.root, p);
          }
        }
      }
    }

    // ---- the ring-3 stack ----------------------------------------------------------

    /** The record of the whole reserved stack region. */
    static function StackRange(base: nat): Mapping { Mapping(STACK_LOW_PAGE, base, STACK_MAX_PAGES, None) }

    static function StackFrame(base: nat, q: nat): nat
      requires q >= STACK_LOW_PAGE
    {
      base + (q - STACK_LOW_PAGE)
    }

    /** Only page-table frames were added to the process. */
    static ghost predicate TablesAdded(w: Words, free: set<nat>, m: Memory, w2: Words, free2: set<nat>, m2: Memory) {
      exists added: seq<nat> :: m2 == Memory(m.root, m2.role, m.frames + added, m.maps) && Grown(w, w2, m.root, m.role, m2.role, free, free2, added)
    }

    ghost predicate StackRecorded()
      reads this
    {
      StackRange(stackBase) in maps
    }

    /** Grows the stack to cover a fault at byte address `fault` below the mapped
        part of the reserved region. The pages down to the fault are mapped to the
        frames reserved for them. While the region's record has not been unmapped
        this takes no frame, cannot fail inside the region, and keeps the process's
        invariant. */
    method TryGrowStack(pt: PageTables, fault: nat, ghost live: set<nat>) returns (ok: bool, ghost k: nat)
      requires Ok(pt, live) && STACK_LOW_PAGE <= stackLow <= STACK_TOP_PAGE
      modifies this`frames, this`role, this`stackLow, pt, pt.pmm.bits
      ensures STACK_LOW_PAGE <= stackLow <= STACK_TOP_PAGE
      ensures ok ==> STACK_LOW_PAGE <= FirstPage(fault) < old(stackLow)
      ensures stackLow == if ok then FirstPage(fault) else old(stackLow)
      ensures !(STACK_LOW_PAGE <= FirstPage(fault) < old(stackLow)) ==> pt.words == old(pt.words) && Mem() == old(Mem())
      ensures STACK_LOW_PAGE <= FirstPage(fault) < old(stackLow) ==>
                && Mapped(old(pt.words), pt.words, root, FirstPage(fault), StackFrame(stackBase, FirstPage(fault)), k, UserPerm(true, false))
                && TablesAdded(old(pt.words), old(pt.pmm.Free()), old(Mem()), pt.words, pt.pmm.Free(), Mem())
                && k <= old(stackLow) - FirstPage(fault) && (ok <==> k == old(stackLow) - FirstPage(fault))
                && (old(StackRecorded()) ==> ok)
      ensures STACK_LOW_PAGE <= FirstPage(fault) < old(stackLow) && AllSplit(old(pt.words), root, FirstPage(fault), old(stackLow) - FirstPage(fault)) ==>
                ok && Mem() == old(Mem()) && pt.pmm.Free() == old(pt.pmm.Free())
      ensures old(StackRecorded()) ==>
                && Ok(pt, live) && Mem() == old(Mem()) && pt.pmm.Free() == old(pt.pmm.Free())
                && Local(old(pt.words), old(pt.pmm.Free()), old(Mem()), pt.words, pt.pmm.Free(), Mem())
                && (old(Agrees(pt.words, Mem())) ==> Agrees(pt.words, Mem()))
    {
      k := 0;
      ghost var was := StackRecorded();
      LocalRefl(pt.words, pt.pmm.Free(), Mem());
      if fault >= stackLow * PAGE_SIZE || fault < STACK_LOW_PAGE * PAGE_SIZE {
        return false, k;
      }
      ok, k := GrowTo(pt, FirstPage(fault), live);
      if was {
        LocalSame(old(pt.words), pt.pmm.Free(), Mem(), pt.words);
      }
    }

    method GrowTo(pt: PageTables, low: nat, ghost live: set<nat>) returns (ok: bool, ghost k: nat)
      requires Ok(pt, live) && STACK_LOW_PAGE <= low < stackLow <= STACK_TOP_PAGE
      modifies this`frames, this`role, this`stackLow, pt, pt.pmm.bits
      ensures stackLow == if ok then low else old(stackLow)
      ensures Mapped(old(pt.words), pt.words, root, low, StackFrame(stackBase, low), k, UserPerm(true, false))
      ensures TablesAdded(old(pt.words), old(pt.pmm.Free()), old(Mem()), pt.words, pt.pmm.Free(), Mem())
      ensures k <= old(stackLow) - low && (ok <==> k == old(stackLow) - low) && (old(StackRecorded()) ==> ok)
      ensures AllSplit(old(pt.words), root, low, old(stackLow) - low) ==> ok && Mem() == old(Mem()) && pt.pmm.Free() == old(pt.pmm.Free())
      ensures old(StackRecorded()) ==>
                && Ok(pt, live) && Mem() == old(Mem()) && pt.pmm.Free() == old(pt.pmm.Free())
                && SameOutside(old(pt.words), pt.words, role.Keys)
                && (old(Agrees(pt.words, Mem())) ==> Agrees(pt.words, Mem()))
    {
      ghost var w0, free0, m0, was := pt.words, pt.pmm.Free(), Mem(), StackRecorded();
      var base, n := stackBase, stackLow - low;
      if was {
        StackBacked(w0, m0, live, base, low, n);
      }
      ghost var added, role2;
      ok, added, role2, k := MapOwn(pt, low, StackFrame(base, low), n, UserPerm(true, false));
      assert added == [] ==> m0.frames + added == m0.frames;
      if was {
        GrowKeeps(w0, m0, pt.words, live, free0, pt.pmm.Free(), role2, added, base, low, n);
      }
      if ok {
        stackLow := low;
      }
    }

    static lemma GrowKeeps(w: Words, m: Memory, w2: Words, live: set<nat>, free: set<nat>, free2: set<nat>, role2: Roles, added: seq<nat>,
                           base: nat, low: nat, n: nat)
      requires Owns(w, m, live) && free !! SetOf(m.frames) && free !! live && live !! SetOf(m.frames) && (forall x :: x in free ==> x < FRAME_COUNT)
      requires StackRange(base) in m.maps && STACK_LOW_PAGE <= low && low + n <= STACK_TOP_PAGE
      requires Grown(w, w2, m.root, m.role, role2, free, free2, added) && added == [] && role2 == m.role
      requires Mapped(w, w2, m.root, low, StackFrame(base, low), n, UserPerm(true, false))
      ensures Memory(m.root, role2, m.frames + added, m.maps) == m && free2 == free
      ensures Owns(w2, m, live) && (Agrees(w, m) ==> Agrees(w2, m))
    {
      assert m.frames + added == m.frames;
      StackBacked(w, m, live, base, low, n);
      InBounds(w, m, live);
      MapKeeps(w, w2, m, live, free, free2, role2, added, low, StackFrame(base, low), n, UserPerm(true, false));
      StackAgrees(w, w2, m, base, low, n, UserPerm(true, false));
    }

    static lemma InBounds(w: Words, m: Memory, live: set<nat>)
      requires Owns(w, m, live)
      ensures forall b :: 0 <= b < |m.maps| ==> m.maps[b].v + m.maps[b].n <= PAGES
    {
      forall b | 0 <= b < |m.maps| ensures m.maps[b].v + m.maps[b].n <= PAGES {
        assert RecordOk(w, m, live, m.maps[b]);
      }
    }

    static lemma StackBacked(w: Words, m: Memory, live: set<nat>, base: nat, low: nat, n: nat)
      requires Owns(w, m, live) && live !! SetOf(m.frames) && StackRange(base) in m.maps
      requires STACK_LOW_PAGE <= low && low + n <= STACK_TOP_PAGE
      ensures AllSplit(w, m.root, low, n)
      ensures forall q: nat, x: nat :: low <= q < low + n && x == StackFrame(base, low) + (q - low) ==> Backed(m, live, q, x)
    {
      var a :| 0 <= a < |m.maps| && m.maps[a] == StackRange(base);
      assert RecordOk(w, m, live, m.maps[a]);
      forall q: nat, x: nat | low <= q < low + n && x == StackFrame(base, low) + (q - low) ensures Backed(m, live, q, x) {
        RecordedBacked(w, m, live, q, x, a);
      }
    }

    static lemma StackAgrees(w: Words, w2: Words, m: Memory, base: nat, low: nat, n: nat, perm: Perm)
      requires STACK_LOW_PAGE <= low && low + n <= STACK_TOP_PAGE
      requires Mapped(w, w2, m.root, low, StackFrame(base, low), n, perm) && StackRange(base) in m.maps
      requires forall b :: 0 <= b < |m.maps| ==> m.maps[b].v + m.maps[b].n <= PAGES
      ensures Agrees(w, m) ==> Agrees(w2, m)
    {
      if Agrees(w, m) {
        var a :| 0 <= a < |m.maps| && m.maps[a] == StackRange(base);
        forall b, p: nat | 0 <= b < |m.maps| && Covers(m.maps[b], p) && UserPage(w2, m.root, p)
          ensures FrameOf(w2, m.root, p) == m.maps[b].f + (p - m.maps[b].v)
        {
          if low <= p < low + n {
            assert Covers(m.maps[a], p);
          } else {
            assert UserPage(w, m.root, p);
          }
        }
      }
    }

    /** What `free_process` needs: the frames are the process's alone. */
    ghost predicate Holds(pt: PageTables)
      reads this, pt, pt.pmm, pt.pmm.bits
    {
      pt.Valid() && Distinct(frames) && (forall x :: x in frames ==> x < FRAME_COUNT) && pt.pmm.Free() !! SetOf(frames)
    }

    /** Returns every frame of the process to the allocator. */
    method FreeProcess(pt: PageTables)
      requires Holds(pt)
      modifies pt.pmm.bits
      ensures pt.pmm.Free() == old(pt.pmm.Free()) + SetOf(frames)
    {
      var i := 0;
      while i < |frames|
        invariant i <= |frames|
        invariant pt.pmm.Free() == old(pt.pmm.Free()) + SetOf(frames[..i])
      {
        pt.pmm.FrameFree(frames[i] * FRAME_SIZE);
        assert frames[i] in frames && frames[i] * FRAME_SIZE / FRAME_SIZE == frames[i];
        assert SetOf(frames[..i + 1]) == SetOf(frames[..i]) + {frames[i]} by {
          assert frames[..i + 1] == frames[..i] + [frames[i]];
        }
        i := i + 1;
      }
      assert frames[..i] == frames;
    }

    /** Reserves the whole stack region as one physical run, records it, and maps
        its top, from page `low` on. */
    method SetupStack(pt: PageTables, low: nat, ghost live: set<nat>) returns (ok: bool)
      requires Ok(pt, live) && STACK_LOW_PAGE <= low < STACK_TOP_PAGE
      modifies this`frames, this`role, this`maps, this`stackLow, this`stackBase, pt, pt.pmm.bits
      ensures Holds(pt) && SetOf(frames) + pt.pmm.Free() == old(SetOf(frames) + pt.pmm.Free())
      ensures SameOutside(old(pt.words), pt.words, role.Keys) && role.Keys <= SetOf(frames)
      ensures ok ==>
                && Ok(pt, live) && stackLow == low
                && Local(old(pt.words), old(pt.pmm.Free()), old(Mem()), pt.words, pt.pmm.Free(), Mem())
                && maps == old(maps) + [StackRange(stackBase)] && Range(stackBase, STACK_MAX_PAGES) <= old(pt.pmm.Free())
                && Mapped(old(pt.words), pt.words, root, low, StackFrame(stackBase, low), STACK_TOP_PAGE - low, UserPerm(true, false))
                && ((old(Agrees(pt.words, Mem())) && Clear(old(Mem()), STACK_LOW_PAGE, STACK_MAX_PAGES)
                     && NoUserIn(old(pt.words), root, STACK_LOW_PAGE, low)) ==> Agrees(pt.words, Mem()))
    {
      ghost var w0, free0, m0 := pt.words, pt.pmm.Free(), Mem();
      var run := pt.pmm.AllocContiguous(STACK_MAX_PAGES);
      ok := false;
      if run.Some? {
        RunInRange(free0, run.value, STACK_MAX_PAGES);
        TakeKeeps(w0, m0, live, free0, run.value, STACK_MAX_PAGES);
        PushFrames(run.value, STACK_MAX_PAGES);
        stackBase := run.value;
        ghost var added, role2, k;
        ok, added, role2, k := MapStackTop(pt, run.value, low);
        ghost var m2 := StackStep(w0, m0, pt.words, live, free0, pt.pmm.Free(), role2, added, run.value, low, k, ok);
        assert Mem() == m2;
      }
    }

    /** The exit stub of a native process: one fresh frame, mapped read-only and
        executable at the page above the stack, and recorded. */
    method MapStub(pt: PageTables, ghost live: set<nat>) returns (ok: bool, ghost f: nat, ghost k: nat)
      requires Ok(pt, live)
      modifies this`frames, this`maps, this`role, pt, pt.pmm.bits
      ensures Ok(pt, live)
      ensures Local(old(pt.words), old(pt.pmm.Free()), old(Mem()), pt.words, pt.pmm.Free(), Mem())
      ensures RangeMapped(old(pt.words), old(Mem()), pt.words, Mem(), Mapping(STACK_TOP_PAGE, f, 1, None), k, UserPerm(false, true), ok)
      ensures ok ==> f in old(pt.pmm.Free())
    {
      f, k := 0, 0;
      ghost var w0, free0, m0 := pt.words, pt.pmm.Free(), Mem();
      LocalRefl(w0, free0, m0);
      var g := pt.pmm.FrameAlloc();
      ok := false;
      if g.Some? {
        f := g.value;
        OneFrame(f);
        TakeKeeps(w0, m0, live, free0, f, 1);
        PushFrames(g.value, 1);
        ghost var added, role2;
        ok, added, role2, k := MapAndRecord(pt, Mapping(STACK_TOP_PAGE, g.value, 1, None), UserPerm(false, true));
        ghost var m2 := FreshStep(w0, m0, pt.words, live, free0, pt.pmm.Free(), role2, added, STACK_TOP_PAGE, f, 1, k, UserPerm(false, true), ok);
        assert Mem() == m2;
      }
    }

    static lemma OneFrame(f: nat)
      ensures Range(f, 1) == {f}
    {
      assert forall x: nat :: InRun(x, f, 1) <==> x == f;
    }

    /** Records the region, then maps its top. */
    method MapStackTop(pt: PageTables, base: nat, low: nat)
      returns (ok: bool, ghost added: seq<nat>, ghost role2: Roles, ghost k: nat)
      requires pt.Valid() && Tree(pt.words, root, role) && role.Keys !! pt.pmm.Free() && STACK_LOW_PAGE <= low < STACK_TOP_PAGE
      modifies this`frames, this`maps, this`role, this`stackLow, pt, pt.pmm.bits
      ensures Grown(old(pt.words), pt.words, root, old(role), role2, old(pt.pmm.Free()), pt.pmm.Free(), added)
      ensures Mapped(old(pt.words), pt.words, root, low, StackFrame(base, low), k, UserPerm(true, false)) && AllSplit(pt.words, root, low, k)
      ensures k <= STACK_TOP_PAGE - low && (ok <==> k == STACK_TOP_PAGE - low)
      ensures Mem() == Memory(root, role2, old(frames) + added, old(maps) + [StackRange(base)])
      ensures stackLow == if ok then low else old(stackLow)
    {
      maps := maps + [StackRange(base)];
      ok, added, role2, k := MapOwn(pt, low, StackFrame(base, low), STACK_TOP_PAGE - low, UserPerm(true, false));
      if ok {
        stackLow := low;
      }
    }

    static lemma StackStep(w: Words, m: Memory, w2: Words, live: set<nat>, free: set<nat>, free2: set<nat>, role2: Roles,
                           added: seq<nat>, base: nat, low: nat, k: nat, ok: bool)
      returns (m2: Memory)
      requires Owns(w, m, live) && free !! SetOf(m.frames) && free !! live && live !! SetOf(m.frames) && (forall x :: x in free ==> x < FRAME_COUNT)
      requires Range(base, STACK_MAX_PAGES) <= free && base + STACK_MAX_PAGES <= FRAME_COUNT && STACK_LOW_PAGE <= low < STACK_TOP_PAGE
      requires Grown(w, w2, m.root, m.role, role2, free - Range(base, STACK_MAX_PAGES), free2, added)
      requires Mapped(w, w2, m.root, low, StackFrame(base, low), k, UserPerm(true, false)) && k <= STACK_TOP_PAGE - low
      requires AllSplit(w2, m.root, low, k) && (ok <==> k == STACK_TOP_PAGE - low)
      ensures m2 == Memory(m.root, role2, m.frames + Run(base, STACK_MAX_PAGES) + added, m.maps + [StackRange(base)])
      ensures ok ==> Owns(w2, m2, live)
      ensures Local(w, free, m, w2, free2, m2) && free2 !! SetOf(m2.frames) && live !! SetOf(m2.frames)
      ensures Distinct(m2.frames) && forall x :: x in m2.frames ==> x < FRAME_COUNT
      ensures ok && Agrees(w, m) && Clear(m, STACK_LOW_PAGE, STACK_MAX_PAGES) && NoUserIn(w, m.root, STACK_LOW_PAGE, low) ==> Agrees(w2, m2)
    {
      var n, f := STACK_MAX_PAGES, StackFrame(base, low);
      TakeKeeps(w, m, live, free, base, n);
      var m1 := m.(frames := m.frames + Run(base, n));
      FreshBacked(w, m, m1, live, free, STACK_LOW_PAGE, base, n);
      MapKeeps(w, w2, m1, live, free - Range(base, n), free2, role2, added, low, f, k, UserPerm(true, false));
      m2 := m1.(role := role2, frames := m1.frames + added);
      LocalTrans(w, free, m, w, free - Range(base, n), m1, w2, free2, m2);
      SetOfConcat(m1.frames, added);
      if ok {
        StackRecord(w, m, w2, m2, live, free, base, low);
        StackSetupAgrees(w, m, w2, m2.(maps := m.maps + [StackRange(base)]), base, low);
      }
      m2 := m2.(maps := m.maps + [StackRange(base)]);
    }

    static lemma StackRecord(w: Words, m: Memory, w2: Words, m2: Memory, live: set<nat>, free: set<nat>, base: nat, low: nat)
      requires Owns(w, m, live) && free !! SetOf(m.frames) && free !! live && Range(base, STACK_MAX_PAGES) <= free
      requires Owns(w2, m2, live) && m2.maps == m.maps && m2.root == m.root && Range(base, STACK_MAX_PAGES) <= Data(m2)
      requires STACK_LOW_PAGE <= low < STACK_TOP_PAGE && AllSplit(w2, m2.root, low, STACK_TOP_PAGE - low)
      requires Mapped(w, w2, m.root, low, StackFrame(base, low), STACK_TOP_PAGE - low, UserPerm(true, false))
      ensures Owns(w2, m2.(maps := m2.maps + [StackRange(base)]), live)
    {
      var r := StackRange(base);
      forall a | 0 <= a < |m2.maps| ensures Apart(m2.maps[a], r) {
        assert RecordOk(w, m, live, m.maps[a]);
      }
      forall q | 0 <= q < ALL_PAGES && UserPage(w2, m2.root, q) ensures InPlace(r, q, FrameOf(w2, m2.root, q)) {
        if !(low <= q < STACK_TOP_PAGE) {
          assert UserPage(w, m.root, q) && Backed(m, live, q, FrameOf(w, m.root, q));
        }
      }
      forall p | STACK_LOW_PAGE <= p < STACK_LOW_PAGE + STACK_MAX_PAGES ensures IsSplit(w2, m2.root, p) {
        assert IsSplit(w2, m2.root, STACK_TOP_PAGE - 1);
        assert L3(p) == L3(STACK_TOP_PAGE - 1) && L2(p) == L2(STACK_TOP_PAGE - 1);
      }
      RecordKeeps(w2, m2, live, r);
    }

    static lemma StackSetupAgrees(w: Words, m: Memory, w2: Words, m2: Memory, base: nat, low: nat)
      requires m2.root == m.root && m2.maps == m.maps + [StackRange(base)] && STACK_LOW_PAGE <= low < STACK_TOP_PAGE
      requires Mapped(w, w2, m.root, low, StackFrame(base, low), STACK_TOP_PAGE - low, UserPerm(true, false))
      requires forall a :: 0 <= a < |m.maps| ==> m.maps[a].v + m.maps[a].n <= PAGES
      ensures Agrees(w, m) && Clear(m, STACK_LOW_PAGE, STACK_MAX_PAGES) && NoUserIn(w, m.root, STACK_LOW_PAGE, low) ==> Agrees(w2, m2)
    {
      if Agrees(w, m) && Clear(m, STACK_LOW_PAGE, STACK_MAX_PAGES) && NoUserIn(w, m.root, STACK_LOW_PAGE, low) {
        forall a, q: nat | 0 <= a < |m2.maps| && Covers(m2.maps[a], q) && UserPage(w2, m2.root, q)
          ensures FrameOf(w2, m2.root, q) == m2.maps[a].f + (q - m2.maps[a].v)
        {
          if !(low <= q < STACK_TOP_PAGE) {
            assert a < |m.maps| ==> m2.maps[a] == m.maps[a] && Covers(m.maps[a], q);
            assert UserPage(w, m.root, q);
          }
        }
        forall a, b, q: nat | 0 <= a < b < |m2.maps| && Covers(m2.maps[a], q) ensures !Covers(m2.maps[b], q) {
          assert m2.maps[a] == m.maps[a];
          assert b < |m.maps| ==> m2.maps[b] == m.maps[b];
        }
      }
    }

    /** No page of [s, e) is reachable from ring 3. */
    static ghost predicate NoUserIn(w: Words, root: nat, s: nat, e: nat) {
      forall q: nat :: s <= q < e ==> !UserPage(w, root, q)
    }

    // ---- the program image ---------------------------------------------------------

    /** Page `v+i` translates to frame `f+i` with permissions `perms[i]`; every other
        page translates as before. */
    static ghost predicate ImageMapped(w: Words, w2: Words, root: nat, v: nat, f: nat, perms: seq<Perm>) {
      forall q: nat :: q < ALL_PAGES ==>
        Walk(w2, root, q) == if v <= q < v + |perms| then PageWith(f + (q - v), perms[q - v]) else Walk(w, root, q)
    }

    static function PageWith(f: nat, perm: Perm): Option<Page> { Some(Page(f, perm.writable, perm.user, perm.nx)) }

    /** The state in which the run of `n` frames from `f` on was taken. */
    static ghost predicate LoadBase(w0: Words, free0: set<nat>, m0: Memory, live: set<nat>, f: nat, n: nat) {
      && Owns(w0, m0, live) && free0 !! SetOf(m0.frames) && free0 !! live && live !! SetOf(m0.frames)
      && Range(f, n) <= free0 && (forall y :: y in free0 ==> y < FRAME_COUNT)
    }

    /** What the page loop of `load_segments` keeps of the process. */
    static ghost predicate LoadingMem(w0: Words, free0: set<nat>, m0: Memory, w: Words, free: set<nat>, m: Memory, live: set<nat>, f: nat, n: nat) {
      && Owns(w, m, live) && Local(w0, free0, m0, w, free, m) && free !! SetOf(m.frames) && live !! SetOf(m.frames) && free <= free0
      && m.maps == m0.maps && m.root == m0.root && Data(m) == Data(m0) + Range(f, n)
    }

    /** It has mapped the first `i` pages. */
    static ghost predicate LoadingView(w0: Words, w: Words, root: nat, v: nat, f: nat, perms: seq<Perm>, i: nat) {
      i <= |perms| && (i > 0 ==> v + i <= PAGES) && ImageMapped(w0, w, root, v, f, perms[..i]) && AllSplit(w, root, v, i)
    }

    static lemma ImageStep(w0: Words, w: Words, w2: Words, root: nat, v: nat, f: nat, perms: seq<Perm>, i: nat, p: nat, x: nat, k: nat, perm: Perm)
      requires i < |perms| && ImageMapped(w0, w, root, v, f, perms[..i]) && p == v + i && x == f + i && perm == perms[i] && k <= 1
      requires Mapped(w, w2, root, p, x, k, perm)
      ensures ImageMapped(w0, w2, root, v, f, perms[..i + k])
    {
      assert k == 1 ==> perms[..i + k] == perms[..i] + [perm];
    }

    static lemma ImageSplit(w: Words, w2: Words, root: nat, v: nat, i: nat, p: nat, k: nat)
      requires AllSplit(w, root, v, i) && SplitsKept(w, w2, root) && (i > 0 ==> v + i <= PAGES)
      requires AllSplit(w2, root, p, k) && p == v + i && k <= 1
      ensures AllSplit(w2, root, v, i + k)
    {
      if i > 0 {
        PageTables.KeepSplit(w, w2, root, v, i);
      }
      assert k == 1 ==> IsSplit(w2, root, p);
      PageTables.SplitStep(w2, root, v, i, p, k, i + k);
    }

    static lemma LoadViewStep(w0: Words, w: Words, w2: Words, root: nat, v: nat, f: nat, perms: seq<Perm>, i: nat, p: nat, x: nat, k: nat, perm: Perm, i2: nat)
      requires i2 == i + k && LoadingView(w0, w, root, v, f, perms, i) && i < |perms|
      requires p == v + i && x == f + i && perm == perms[i] && k <= 1 && SplitsKept(w, w2, root)
      requires Mapped(w, w2, root, p, x, k, perm) && AllSplit(w2, root, p, k) && (k > 0 ==> p + k <= PAGES)
      ensures LoadingView(w0, w2, root, v, f, perms, i2)
    {
      ImageStep(w0, w, w2, root, v, f, perms, i, p, x, k, perm);
      ImageSplit(w, w2, root, v, i, p, k);
    }

    static lemma LoadMemStep(w0: Words, free0: set<nat>, m0: Memory, w: Words, free: set<nat>, m: Memory, live: set<nat>, v: nat, f: nat, n: nat,
                             w2: Words, free2: set<nat>, role2: Roles, added: seq<nat>, p: nat, x: nat, k: nat, perm: Perm)
      returns (m2: Memory)
      requires LoadBase(w0, free0, m0, live, f, n) && LoadingMem(w0, free0, m0, w, free, m, live, f, n)
      requires Grown(w, w2, m.root, m.role, role2, free, free2, added) && Mapped(w, w2, m.root, p, x, k, perm)
      requires p - x == v - f && v <= p && p + k <= v + n
      ensures m2 == m.(role := role2, frames := m.frames + added)
      ensures LoadingMem(w0, free0, m0, w2, free2, m2, live, f, n)
    {
      FreshBacked(w0, m0, m, live, free0, v, f, n);
      MapKeeps(w, w2, m, live, free, free2, role2, added, p, x, k, perm);
      m2 := m.(role := role2, frames := m.frames + added);
      SetOfConcat(m.frames, added);
      LocalTrans(w0, free0, m0, w, free, m, w2, free2, m2);
    }

    /** Loads an image of |perms| pages at page `v`: one run of frames, one page at a
        time with its own permissions, recorded at the end. */
    method LoadImage(pt: PageTables, v: nat, perms: seq<Perm>, ghost live: set<nat>) returns (ok: bool, f: nat)
      requires Ok(pt, live)
      modifies this`frames, this`role, this`maps, pt, pt.pmm.bits
      ensures Ok(pt, live)
      ensures Local(old(pt.words), old(pt.pmm.Free()), old(Mem()), pt.words, pt.pmm.Free(), Mem())
      ensures !ok ==> maps == old(maps)
      ensures ok ==>
                && 0 < |perms| && v + |perms| <= PAGES && maps == old(maps) + [Mapping(v, f, |perms|, None)]
                && Range(f, |perms|) <= old(pt.pmm.Free())
                && ImageMapped(old(pt.words), pt.words, root, v, f, perms)
                && (old(Agrees(pt.words, Mem())) && Clear(old(Mem()), v, |perms|) ==> Agrees(pt.words, Mem()))
    {
      f := 0;
      ghost var w0, free0, m0 := pt.words, pt.pmm.Free(), Mem();
      LocalRefl(w0, free0, m0);
      var run := pt.pmm.AllocContiguous(|perms|);
      if run.None? {
        return false, f;
      }
      f := run.value;
      RunInRange(free0, f, |perms|);
      TakeKeeps(w0, m0, live, free0, f, |perms|);
      PushFrames(f, |perms|);
      assert Mem() == m0.(frames := m0.frames + Run(f, |perms|));
      ghost var k;
      ok, k := MapImage(pt, v, f, perms, w0, free0, m0, live);
      if ok {
        ghost var m2 := RecordImage(w0, free0, m0, pt.words, pt.pmm.Free(), Mem(), live, v, f, perms);
        maps := maps + [Mapping(v, f, |perms|, None)];
        assert Mem() == m2;
      }
    }

    method MapImage(pt: PageTables, v: nat, f: nat, perms: seq<Perm>, ghost w0: Words, ghost free0: set<nat>, ghost m0: Memory, ghost live: set<nat>)
      returns (ok: bool, ghost k: nat)
      requires pt.Valid() && LoadBase(w0, free0, m0, live, f, |perms|) && LoadingMem(w0, free0, m0, pt.words, pt.pmm.Free(), Mem(), live, f, |perms|)
      requires LoadingView(w0, pt.words, root, v, f, perms, 0)
      modifies this`frames, this`role, pt, pt.pmm.bits
      ensures LoadingMem(w0, free0, m0, pt.words, pt.pmm.Free(), Mem(), live, f, |perms|) && LoadingView(w0, pt.words, root, v, f, perms, k)
      ensures ok <==> k == |perms|
    {
      var i := 0;
      k, ok := 0, true;
      while i < |perms|
        invariant k == i <= |perms| && ok
        invariant LoadingMem(w0, free0, m0, pt.words, pt.pmm.Free(), Mem(), live, f, |perms|) && LoadingView(w0, pt.words, root, v, f, perms, k)
      {
        ok, k := MapImagePage(pt, v, f, perms, i, w0, free0, m0, live);
        if !ok {
          return;
        }
        i := i + 1;
      }
    }

    method MapImagePage(pt: PageTables, v: nat, f: nat, perms: seq<Perm>, i: nat, ghost w0: Words, ghost free0: set<nat>, ghost m0: Memory, ghost live: set<nat>)
      returns (ok: bool, ghost k: nat)
      requires pt.Valid() && LoadBase(w0, free0, m0, live, f, |perms|) && LoadingMem(w0, free0, m0, pt.words, pt.pmm.Free(), Mem(), live, f, |perms|) && LoadingView(w0, pt.words, root, v, f, perms, i)
      requires i < |perms|
      modifies this`frames, this`role, pt, pt.pmm.bits
      ensures LoadingMem(w0, free0, m0, pt.words, pt.pmm.Free(), Mem(), live, f, |perms|) && LoadingView(w0, pt.words, root, v, f, perms, k)
      ensures k == if ok then i + 1 else i
    {
      ghost var w, free, m := pt.words, pt.pmm.Free(), Mem();
      var p, x, perm := v + i, f + i, perms[i];
      ghost var added, role2, d;
      ok, added, role2, d := MapOwn(pt, p, x, 1, perm);
      k := i + d;
      ghost var m2 := LoadMemStep(w0, free0, m0, w, free, m, live, v, f, |perms|, pt.words, pt.pmm.Free(), role2, added, p, x, d, perm);
      LoadViewStep(w0, w, pt.words, root, v, f, perms, i, p, x, d, perm, k);
      assert Mem() == m2;
    }

    static lemma RecordImage(w0: Words, free0: set<nat>, m0: Memory, w: Words, free: set<nat>, m: Memory, live: set<nat>,
                             v: nat, f: nat, perms: seq<Perm>)
      returns (m2: Memory)
      requires LoadBase(w0, free0, m0, live, f, |perms|)
      requires LoadingMem(w0, free0, m0, w, free, m, live, f, |perms|) && LoadingView(w0, w, m0.root, v, f, perms, |perms|) && |perms| > 0
      ensures m2 == m.(maps := m.maps + [Mapping(v, f, |perms|, None)])
      ensures Owns(w, m2, live) && Local(w0, free0, m0, w, free, m2)
      ensures ImageMapped(w0, w, m0.root, v, f, perms)
      ensures Agrees(w0, m0) && Clear(m0, v, |perms|) ==> Agrees(w, m2)
    {
      m2 := m.(maps := m.maps + [Mapping(v, f, |perms|, None)]);
      InBounds(w0, m0, live);
      assert perms[..|perms|] == perms;
      assert Placed(w0, w, m0.root, v, f, |perms|);
      FreshRecord(w0, m0, w, m, live, free0, v, f, |perms|);
      RangeAgrees(w0, m0, w, m2, Mapping(v, f, |perms|, None), |perms|, true);
    }
  }
}
