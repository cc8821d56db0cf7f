/** Two uses of the memory invariant (src/process.rs:176-234, 524-561): the answers of
    `translate_local` agree with the page walk, and what stack growth needs. */
module Reach {
  import opened Wrappers
  import opened Pmm
  import opened PageTable
  import opened Paging
  import opened ProcessMemory
  import opened Process
  import Shm

  // ---- translate_local ------------------------------------------------------------------------

  const ADDRESS_LIMIT: nat := 0x1_0000_0000_0000_0000

  /** Recorded range `r` holds all of [a, end). */
  predicate HoldsBytes(r: Mapping, a: nat, end: nat) { 4096 * r.v <= a && end <= 4096 * (r.v + r.n) }

  /** `translate_local`: the physical address of [a, a + len) by the first recorded range
      that holds all of it. */
  function TranslateLocal(maps: seq<Mapping>, a: nat, len: nat): Option<nat> {
    if a + len >= ADDRESS_LIMIT || maps == [] then None
    else if HoldsBytes(maps[0], a, a + len) then Some(4096 * maps[0].f + (a - 4096 * maps[0].v))
    else TranslateLocal(maps[1..], a, len)
  }

  lemma {:induction false} TranslateFrom(maps: seq<Mapping>, a: nat, len: nat) returns (i: nat)
    requires TranslateLocal(maps, a, len).Some?
    ensures i < |maps| && HoldsBytes(maps[i], a, a + len) && TranslateLocal(maps, a, len).value == 4096 * maps[i].f + (a - 4096 * maps[i].v)
    decreases |maps|
  {
    if HoldsBytes(maps[0], a, a + len) {
      i := 0;
    } else {
      i := TranslateFrom(maps[1..], a, len);
      i := i + 1;
    }
  }

  /** While list and page table agree, every byte of an answer of `translate_local` on a
      page ring 3 can reach is the byte the page walk leads to. */
  lemma TranslateIsWalk(w: Words, m: Memory, a: nat, len: nat, k: nat)
    requires Agrees(w, m) && TranslateLocal(m.maps, a, len).Some? && k < len && UserPage(w, m.root, (a + k) / 4096)
    ensures TranslateLocal(m.maps, a, len).value + k == 4096 * FrameOf(w, m.root, (a + k) / 4096) + (a + k) % 4096
  {
    var i := TranslateFrom(m.maps, a, len);
    var q := (a + k) / 4096;
    assert Covers(m.maps[i], q);
    assert FrameOf(w, m.root, q) == m.maps[i].f + (q - m.maps[i].v);
  }

  // ---- growing the stack ------------------------------------------------------------------------

  /** The frames `f`.. are the process's own, at the pages `v`.. they are mapped at. */
  ghost predicate BackedInPlace(m: Memory, live: set<nat>, v: nat, f: nat, k: nat) {
    forall q: nat, x: nat :: v <= q < v + k && x == f + (q - v) ==> Backed(m, live, q, x)
  }

  /** Mapping pages for ring 3 keeps the ownership invariant exactly when the frames are
      backed in place. */
  lemma GrowthKeeps(w: Words, w2: Words, m: Memory, live: set<nat>, free: set<nat>, free2: set<nat>, role2: Roles, added: seq<nat>,
                    v: nat, f: nat, k: nat, perm: Perm)
    requires Owns(w, m, live) && free !! SetOf(m.frames) && free !! live && (forall x :: x in free ==> x < FRAME_COUNT)
    requires Grown(w, w2, m.root, m.role, role2, free, free2, added) && Mapped(w, w2, m.root, v, f, k, perm)
    requires perm.user && (k > 0 ==> v + k <= PAGES)
    ensures Owns(w2, m.(role := role2, frames := m.frames + added), live) <==> BackedInPlace(m, live, v, f, k)
  {
    var m2 := m.(role := role2, frames := m.frames + added);
    if BackedInPlace(m, live, v, f, k) {
      MapKeeps(w, w2, m, live, free, free2, role2, added, v, f, k, perm);
    }
    if Owns(w2, m2, live) {
      SetOfConcat(m.frames, added);
      assert Data(m2) == Data(m);
      forall q: nat, x: nat | v <= q < v + k && x == f + (q - v) ensures Backed(m, live, q, x) {
        assert UserPage(w2, m.root, q) && FrameOf(w2, m.root, q) == x;
        assert Backed(m2, live, q, x);
      }
    }
  }

  /** While the region is recorded every page of it is backed in place; once its frames are
      free again none is. */
  lemma RecordBacks(w: Words, m: Memory, live: set<nat>, free: set<nat>, base: nat, low: nat, n: nat)
    requires Owns(w, m, live) && live !! SetOf(m.frames) && free !! SetOf(m.frames) && free !! live
    requires STACK_LOW_PAGE <= low && low + n <= STACK_TOP_PAGE
    ensures Proc.StackRange(base) in m.maps ==> BackedInPlace(m, live, low, Proc.StackFrame(base, low), n)
    ensures n > 0 && Range(base, STACK_MAX_PAGES) <= free ==> !BackedInPlace(m, live, low, Proc.StackFrame(base, low), n)
  {
    if Proc.StackRange(base) in m.maps {
      Proc.StackBacked(w, m, live, base, low, n);
    }
    if n > 0 && Range(base, STACK_MAX_PAGES) <= free {
      var x := Proc.StackFrame(base, low);
      assert InRun(x, base, STACK_MAX_PAGES) && x in free;
      assert !Backed(m, live, low, x);
    }
  }

  /** Serving a stack fault keeps the process's invariant exactly when the frames the region
      has for the pages from the fault up to the mapped part are still backed in place; when it
      fails half way, exactly when those of the pages it mapped are. Where the page tables are
      there it does not fail. */
  method GrowExactly(p: Proc, pt: PageTables, fault: nat, ghost live: set<nat>) returns (ok: bool, ghost k: nat)
    requires p.Ok(pt, live) && STACK_LOW_PAGE <= FirstPage(fault) < p.stackLow <= STACK_TOP_PAGE
    modifies p, pt, pt.pmm.bits
    ensures var m, q, n := old(p.Mem()), FirstPage(fault), old(p.stackLow) - FirstPage(fault);
            var f := Proc.StackFrame(old(p.stackBase), q);
            && (ok ==> (Owns(pt.words, p.Mem(), live) <==> BackedInPlace(m, live, q, f, n)))
            && (BackedInPlace(m, live, q, f, n) ==> Owns(pt.words, p.Mem(), live))
            && (Owns(pt.words, p.Mem(), live) <==> BackedInPlace(m, live, q, f, k))
            && (AllSplit(old(pt.words), p.root, q, n) ==> ok) && (ok <==> k == n) && k <= n
  {
    ghost var w, m, free, base, q := pt.words, p.Mem(), pt.pmm.Free(), p.stackBase, FirstPage(fault);
    ok, k := p.TryGrowStack(pt, fault, live);
    ghost var added: seq<nat> :| p.Mem() == Memory(m.root, p.role, m.frames + added, m.maps)
                                 && Grown(w, pt.words, m.root, m.role, p.role, free, pt.pmm.Free(), added);
    GrowthKeeps(w, pt.words, m, live, free, pt.pmm.Free(), p.role, added, q, Proc.StackFrame(base, q), k, UserPerm(true, false));
  }

  /** A process with a stack that still can grow unmaps the region and then takes a fault in
      it: the fault is served, and ring 3 holds a frame that is free. */
  method GrowAfterUnmap(p: Proc, pt: PageTables, fault: nat, ghost live: set<nat>)
    requires p.Ok(pt, live) && p.StackRecorded() && STACK_LOW_PAGE <= FirstPage(fault) < p.stackLow <= STACK_TOP_PAGE
    modifies p, pt, pt.pmm.bits
    ensures !p.StackRecorded() && UserPage(pt.words, p.root, FirstPage(fault))
    ensures FrameOf(pt.words, p.root, FirstPage(fault)) in pt.pmm.Free() && !Owns(pt.words, p.Mem(), live)
  {
    ghost var base, q, low := p.stackBase, FirstPage(fault), p.stackLow;
    ghost var w0, m0 := pt.words, p.Mem();
    StackPages();
    p.Munmap(pt, STACK_LOW_PAGE * PAGE_SIZE, STACK_MAX_PAGES * PAGE_SIZE, live);
    ghost var w1, m1, free1 := pt.words, p.Mem(), pt.pmm.Free();
    UnmapsStack(w0, w1, m0, live, base, q, low);
    var ok, k := p.TryGrowStack(pt, fault, live);
    HoldsFree(w1, pt.words, m1, live, free1, base, q, k);
  }

  lemma StackPages()
    ensures FirstPage(STACK_LOW_PAGE * PAGE_SIZE) == STACK_LOW_PAGE
    ensures EndPage(STACK_LOW_PAGE * PAGE_SIZE, STACK_MAX_PAGES * PAGE_SIZE) == STACK_TOP_PAGE
  {
  }

  /** Unmapping the region drops its record, frees its frames and keeps its page tables. */
  lemma UnmapsStack(w: Words, w2: Words, m: Memory, live: set<nat>, base: nat, q: nat, low: nat)
    requires Owns(w, m, live) && live !! SetOf(m.frames) && Proc.StackRange(base) in m.maps && SplitsKept(w, w2, m.root)
    requires STACK_LOW_PAGE <= q < low <= STACK_TOP_PAGE
    ensures AllSplit(w2, m.root, q, low - q) && Proc.StackRange(base) !in Keep(m.maps, STACK_LOW_PAGE, STACK_TOP_PAGE)
    ensures Range(base, STACK_MAX_PAGES) <= FreedBy(m.maps, STACK_LOW_PAGE, STACK_TOP_PAGE)
  {
    Proc.StackBacked(w, m, live, base, q, low - q);
    PageTables.KeepSplit(w, w2, m.root, q, low - q);
    KeepIs(m.maps, STACK_LOW_PAGE, STACK_TOP_PAGE, Proc.StackRange(base));
    var a :| 0 <= a < |m.maps| && m.maps[a] == Proc.StackRange(base);
    forall x | x in Range(base, STACK_MAX_PAGES) ensures x in FreedBy(m.maps, STACK_LOW_PAGE, STACK_TOP_PAGE) {
      FreedByIs(m.maps, STACK_LOW_PAGE, STACK_TOP_PAGE, x);
      assert Inside(m.maps[a], STACK_LOW_PAGE, STACK_TOP_PAGE) && x in Range(m.maps[a].f, m.maps[a].n);
    }
  }

  /** A page of the region mapped to its frame, which is free. */
  lemma HoldsFree(w: Words, w2: Words, m: Memory, live: set<nat>, free: set<nat>, base: nat, q: nat, k: nat)
    requires STACK_LOW_PAGE <= q < STACK_TOP_PAGE && k > 0 && Mapped(w, w2, m.root, q, Proc.StackFrame(base, q), k, UserPerm(true, false))
    requires Range(base, STACK_MAX_PAGES) <= free && free !! SetOf(m.frames) && free !! live
    ensures UserPage(w2, m.root, q) && FrameOf(w2, m.root, q) in free && !Owns(w2, m, live)
  {
    var x := Proc.StackFrame(base, q);
    assert InRun(x, base, STACK_MAX_PAGES) && x in Range(base, STACK_MAX_PAGES);
    assert Walk(w2, m.root, q).Some? && FrameOf(w2, m.root, q) == x;
    assert !Backed(m, live, q, x);
  }

  // ---- shared objects freed or moved while mapped ---------------------------------------------------

  /** The `n` pages from `v` on are open to ring 3, and the frames behind them are free. */
  ghost predicate HoldsFreeFrames(w: Words, root: nat, v: nat, n: nat, free: set<nat>) {
    forall q: nat :: v <= q < v + n ==> UserPage(w, root, q) && FrameOf(w, root, q) in free
  }

  /** Then the process's invariant does not hold, whichever frames are said to be live. */
  ghost predicate Broken(w: Words, m: Memory, free: set<nat>) { forall live: set<nat> :: free !! live ==> !Owns(w, m, live) }

  lemma FreeNotOwned(w: Words, m: Memory, v: nat, n: nat, free: set<nat>)
    requires HoldsFreeFrames(w, m.root, v, n, free) && 0 < n && v + n <= PAGES && free !! SetOf(m.frames)
    ensures Broken(w, m, free)
  {
    forall live: set<nat> | free !! live ensures !Owns(w, m, live) {
      assert UserPage(w, m.root, v) && FrameOf(w, m.root, v) in free;
      assert !Backed(m, live, v, FrameOf(w, m.root, v));
    }
  }

  /** The frames of all objects are live, and the table is in order. */
  ghost predicate Sharing(pt: PageTables, shm: Shm.ShmTable, live: set<nat>)
    reads pt, pt.pmm, pt.pmm.bits, shm, shm.pmm, shm.pmm.bits
  {
    shm.pmm == pt.pmm && shm.Valid() && Shm.Used(shm.objs) <= live
  }

  lemma StillSound(objs: Shm.Objects, free: set<nat>, free2: set<nat>, live: set<nat>)
    requires Shm.Sound(objs, free) && Shm.Used(objs) <= live && free2 !! live
    ensures Shm.Sound(objs, free2)
  {
    forall id: nat ensures Shm.Backing(objs, id) !! free2 {
      forall f | f in Shm.Backing(objs, id) ensures f in live {
        assert Shm.UsedBy(objs, f) && InRun(f, objs[id].value.phys, objs[id].value.pages);
        assert f in Shm.Used(objs);
      }
    }
  }

  lemma BackingLive(objs: Shm.Objects, free: set<nat>, live: set<nat>, id: nat)
    requires Shm.Sound(objs, free) && Shm.Used(objs) <= live
    ensures Shm.Backing(objs, id) <= live
  {
    forall f | f in Shm.Backing(objs, id) ensures f in live {
      assert Shm.UsedBy(objs, f) && InRun(f, objs[id].value.phys, objs[id].value.pages);
      assert f in Shm.Used(objs);
    }
  }

  lemma MappedHolds(w: Words, w2: Words, root: nat, v: nat, f: nat, n: nat, perm: Perm, free: set<nat>)
    requires Mapped(w, w2, root, v, f, n, perm) && perm.user && v + n <= PAGES && Range(f, n) <= free
    ensures HoldsFreeFrames(w2, root, v, n, free)
  {
    forall q: nat | v <= q < v + n ensures UserPage(w2, root, q) && FrameOf(w2, root, q) in free {
      assert InRun(f + (q - v), f, n) && f + (q - v) in Range(f, n);
    }
  }

  /** A process maps all of a live object. */
  method MapObject(p: Proc, pt: PageTables, shm: Shm.ShmTable, at: nat, id: nat, writable: bool, executable: bool, ghost live: set<nat>)
    returns (ok: bool)
    requires p.Ok(pt, live) && Sharing(pt, shm, live) && Shm.Live(shm.objs, id)
    modifies p, pt, pt.pmm.bits
    ensures p.Ok(pt, live) && Sharing(pt, shm, live) && shm.objs == old(shm.objs)
    ensures ok ==> at / PAGE_SIZE + shm.objs[id].value.pages <= PAGES && HoldsFreeFrames(pt.words, p.root, at / PAGE_SIZE, shm.objs[id].value.pages, Shm.Backing(shm.objs, id))
    ensures var n := shm.objs[id].value.pages;
            0 < n && at / PAGE_SIZE + n <= PAGES && AllSplit(old(pt.words), p.root, at / PAGE_SIZE, n) ==> ok
  {
    ghost var w, free := pt.words, pt.pmm.Free();
    var obj := shm.objs[id].value;
    BackingLive(shm.objs, free, live, id);
    var v, k := p.MmapShared(pt, Some(at), id, obj.phys, obj.pages, writable, executable, live);
    ok := v.Some?;
    StillSound(shm.objs, free, pt.pmm.Free(), live);
    if ok {
      MappedHolds(w, pt.words, p.root, at / PAGE_SIZE, obj.phys, obj.pages, UserPerm(writable, executable), Range(obj.phys, obj.pages));
    }
  }

  /** A process maps an object and the last reference to it is closed: its frames are free, and
      the process still reaches them. */
  method FreedWhileMapped(p: Proc, pt: PageTables, shm: Shm.ShmTable, at: nat, id: nat, writable: bool, executable: bool, ghost live: set<nat>)
    returns (ok: bool)
    requires p.Ok(pt, live) && Sharing(pt, shm, live) && Shm.RefCount(shm.objs, id) == 1
    modifies p, pt, pt.pmm.bits, shm
    ensures var v, n := at / PAGE_SIZE, old(shm.objs)[id].value.pages;
            && (ok ==> v + n <= PAGES && HoldsFreeFrames(pt.words, p.root, v, n, pt.pmm.Free()))
            && (ok && 0 < n ==> Broken(pt.words, p.Mem(), pt.pmm.Free()))
            && (0 < n && v + n <= PAGES && AllSplit(old(pt.words), p.root, v, n) ==> ok)
  {
    ghost var v, n, objs, free := at / PAGE_SIZE, shm.objs[id].value.pages, shm.objs, pt.pmm.Free();
    BackingLive(objs, free, live, id);
    ok := MapObject(p, pt, shm, at, id, writable, executable, live);
    shm.Close(id);
    if ok && 0 < n {
      FreeNotOwned(pt.words, p.Mem(), v, n, pt.pmm.Free());
    }
  }

  /** A process maps an object that then grows beyond its frames: it moves, the frames it had are
      free, and the process still reaches them. */
  method MovedWhileMapped(p: Proc, pt: PageTables, shm: Shm.ShmTable, at: nat, id: nat, size: nat, writable: bool, executable: bool, ghost live: set<nat>)
    returns (ok: bool, moved: bool)
    requires p.Ok(pt, live) && Sharing(pt, shm, live) && Shm.Live(shm.objs, id) && !Shm.Stays(shm.objs[id].value, size)
    modifies p, pt, pt.pmm.bits, shm
    ensures var v, n := at / PAGE_SIZE, old(shm.objs)[id].value.pages;
            && (ok && moved ==> v + n <= PAGES && HoldsFreeFrames(pt.words, p.root, v, n, pt.pmm.Free()))
            && (ok && moved && 0 < n ==> Broken(pt.words, p.Mem(), pt.pmm.Free()))
            && (0 < n && v + n <= PAGES && AllSplit(old(pt.words), p.root, v, n) ==> ok)
  {
    ghost var v, n, objs, free := at / PAGE_SIZE, shm.objs[id].value.pages, shm.objs, pt.pmm.Free();
    BackingLive(objs, free, live, id);
    ok := MapObject(p, pt, shm, at, id, writable, executable, live);
    moved := shm.Truncate(id, size);
    if ok && moved && 0 < n {
      FreeNotOwned(pt.words, p.Mem(), v, n, pt.pmm.Free());
    }
  }
}
