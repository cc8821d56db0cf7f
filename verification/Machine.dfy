/** The running machine: the page tables, the frame bitmap, the shared objects and all
    processes, changed only by the kernel's own operations (src/process.rs, src/shm.rs,
    src/paging.rs). The ghost state `sys` is what `System` reasons about. */
module Machine {
  import opened Wrappers
  import opened Pmm
  import opened PageTable
  import opened Paging
  import opened AddressSpace
  import opened ProcessMemory
  import opened Process
  import opened Spawn
  import opened Views
  import opened System
  import Shm

  /** The frames of every shared object. */
  function ShmFrames(objs: Shm.Objects): map<nat, set<nat>> {
    map id: nat | id < |objs| && objs[id].Some? :: Range(objs[id].value.phys, objs[id].value.pages)
  }

  ghost predicate ObjectsOk(objs: Shm.Objects) {
    forall id: nat :: Shm.Live(objs, id) ==> objs[id].value.refcount > 0 && Shm.Fits(objs[id].value)
  }

  /** Where every frame has one owner, shared objects are apart and not free. */
  lemma ObjectsSound(s: Sys, own: Owners, objs: Shm.Objects)
    requires Accounted(s, own) && s.shms == ShmFrames(objs) && ObjectsOk(objs)
    ensures Shm.Sound(objs, s.free)
  {
    forall id: nat ensures Shm.Backing(objs, id) == Backing(s.shms, id) && Backing(s.shms, id) !! s.free {
    }
    forall id: nat, id2: nat | id != id2 ensures Shm.Backing(objs, id) !! Shm.Backing(objs, id2) {
      assert Shm.Backing(objs, id) == Backing(s.shms, id) && Shm.Backing(objs, id2) == Backing(s.shms, id2);
    }
  }

  /** The first free slot, `id`, holds `obj`. */
  ghost predicate TookSlot(objs: Shm.Objects, id: nat, obj: Shm.SharedMem, objs2: Shm.Objects) {
    && (forall k: nat :: k < id ==> Shm.Live(objs, k)) && !Shm.Live(objs, id) && id <= |objs|
    && objs2 == if id < |objs| then objs[id := Some(obj)] else objs + [Some(obj)]
  }

  lemma FramesPut(objs: Shm.Objects, objs2: Shm.Objects, id: nat)
    requires id < |objs2| && objs2[id].Some? && id <= |objs| && objs2 == (if id < |objs| then objs[id := objs2[id]] else objs + [objs2[id]])
    ensures ShmFrames(objs2) == ShmFrames(objs)[id := Range(objs2[id].value.phys, objs2[id].value.pages)]
  {
  }

  lemma FramesKept(objs: Shm.Objects, objs2: Shm.Objects)
    requires |objs2| == |objs| && forall id: nat :: Shm.Live(objs2, id) == Shm.Live(objs, id) && Shm.Backing(objs2, id) == Shm.Backing(objs, id)
    ensures ShmFrames(objs2) == ShmFrames(objs)
  {
    forall id: nat | id in ShmFrames(objs) ensures id in ShmFrames(objs2) && ShmFrames(objs2)[id] == ShmFrames(objs)[id] {
      assert Shm.Live(objs, id) && Shm.Backing(objs2, id) == Shm.Backing(objs, id);
    }
    forall id: nat | id in ShmFrames(objs2) ensures id in ShmFrames(objs) {
      assert Shm.Live(objs2, id);
    }
  }

  lemma FramesGone(objs: Shm.Objects, objs2: Shm.Objects, id: nat)
    requires Shm.Live(objs, id) && objs2 == objs[id := None]
    ensures ShmFrames(objs2) == ShmFrames(objs) - {id}
  {
  }

  // ---- the steps each operation makes ---------------------------------------------------------

  /** The ranges `munmap` of [s, e) drops, one step each. */
  function DropOps(maps: seq<Mapping>, s: nat, e: nat): Log {
    if maps == [] then []
    else
      var rest, r := DropOps(maps[..|maps| - 1], s, e), maps[|maps| - 1];
      if Inside(r, s, e) then rest + [DropOp(r.v, r.n)] else rest
  }

  lemma {:induction false} DropSays(maps: seq<Mapping>, s: nat, e: nat, q: nat, start: Option<Page>)
    ensures LastSays(DropOps(maps, s, e), q, start) == if Dropped(maps, s, e, q) then None else start
    decreases |maps|
  {
    if maps != [] {
      var n := |maps| - 1;
      var rest, r := DropOps(maps[..n], s, e), maps[n];
      DropSays(maps[..n], s, e, q, start);
      DroppedLast(maps, s, e, q);
      if Inside(r, s, e) {
        assert (rest + [DropOp(r.v, r.n)])[..|rest|] == rest;
      }
    }
  }

  lemma DroppedLast(maps: seq<Mapping>, s: nat, e: nat, q: nat)
    requires maps != []
    ensures Dropped(maps, s, e, q) <==> Dropped(maps[..|maps| - 1], s, e, q) || (Inside(maps[|maps| - 1], s, e) && Covers(maps[|maps| - 1], q))
  {
    var n := |maps| - 1;
    if Dropped(maps[..n], s, e, q) {
      var a :| 0 <= a < n && Inside(maps[..n][a], s, e) && Covers(maps[..n][a], q);
      assert maps[a] == maps[..n][a];
    }
    if Dropped(maps, s, e, q) {
      var a :| 0 <= a < |maps| && Inside(maps[a], s, e) && Covers(maps[a], q);
      assert a < n ==> maps[..n][a] == maps[a];
    }
  }

  lemma DoesDrop(w: Words, w2: Words, root: nat, maps: seq<Mapping>, s: nat, e: nat)
    requires DroppedFrom(w, w2, root, maps, s, e)
    ensures Does(w, w2, root, DropOps(maps, s, e))
  {
    forall q: nat | q < ALL_PAGES ensures Walk(w2, root, q) == LastSays(DropOps(maps, s, e), q, Walk(w, root, q)) {
      DropSays(maps, s, e, q, Walk(w, root, q));
    }
  }

  /** `mprotect` maps page after page onto the frame recorded for it. */
  function ProtectOps(maps: seq<Mapping>, v: nat, k: nat, perm: Perm): Log
    requires forall q :: v <= q < v + k ==> Lookup(maps, q).Some?
  {
    if k == 0 then [] else ProtectOps(maps, v, k - 1, perm) + [MapOp(v + k - 1, Lookup(maps, v + k - 1).value, 1, perm)]
  }

  lemma {:induction false} ProtectSays(maps: seq<Mapping>, v: nat, k: nat, perm: Perm, q: nat, start: Option<Page>)
    requires Proc.Recorded(maps, v, k)
    ensures LastSays(ProtectOps(maps, v, k, perm), q, start) ==
            if v <= q < v + k then Some(Page(Lookup(maps, q).value, perm.writable, perm.user, perm.nx)) else start
    decreases k
  {
    if k > 0 {
      var rest, op := ProtectOps(maps, v, k - 1, perm), MapOp(v + k - 1, Lookup(maps, v + k - 1).value, 1, perm);
      ProtectSays(maps, v, k - 1, perm, q, start);
      assert (rest + [op])[..|rest|] == rest;
    }
  }

  lemma DoesProtect(w: Words, w2: Words, m: Memory, v: nat, k: nat, perm: Perm)
    requires Proc.Protected(w, w2, m, v, k, perm)
    ensures Does(w, w2, m.root, ProtectOps(m.maps, v, k, perm))
  {
    forall q: nat | q < ALL_PAGES ensures Walk(w2, m.root, q) == LastSays(ProtectOps(m.maps, v, k, perm), q, Walk(w, m.root, q)) {
      ProtectSays(m.maps, v, k, perm, q, Walk(w, m.root, q));
    }
  }

  // ---- records ----------------------------------------------------------------------------------

  /** A new record keeps the others; a shared one must name the object of its frames. */
  lemma IndexedMore(m: Memory, m2: Memory, r: Mapping, ok: bool, used: set<nat>, shms: map<nat, set<nat>>)
    requires Indexed(m, used, shms) && m2.maps == (if ok then m.maps + [r] else m.maps)
    requires r.shm.Some? ==> r.shm.value in used && r.shm.value in shms && Range(r.f, r.n) <= shms[r.shm.value]
    ensures Indexed(m2, used, shms)
    ensures forall t :: t in m.maps ==> t in m2.maps
  {
  }

  lemma IndexedFewer(m: Memory, m2: Memory, s: nat, e: nat, used: set<nat>, shms: map<nat, set<nat>>)
    requires Indexed(m, used, shms) && m2.maps == Keep(m.maps, s, e)
    ensures Indexed(m2, used, shms)
  {
    forall a | 0 <= a < |m2.maps| ensures m2.maps[a] in m.maps {
      KeepIs(m.maps, s, e, m2.maps[a]);
    }
  }

  lemma NoUserAfter(w: Words, w2: Words, root: nat, v: nat, f: nat, k: nat, perm: Perm)
    requires NoUserPage(w, root) && Mapped(w, w2, root, v, f, k, perm) && !perm.user
    ensures NoUserPage(w2, root)
  {
  }

  /** Every one of the frames `all` has one owner, and the invariant holds. */
  ghost predicate Sane(s: Sys, all: set<nat>) { exists own: Owners :: Inv(s, own) && own.Keys == all }

  /** The table entry `v` is what `p` says. */
  ghost predicate Same(v: Saved, p: Space) {
    v.root == p.mem.root && v.frames == p.mem.frames && v.maps == p.mem.maps && v.bounds == p.bounds
  }

  ghost predicate Tabled(procs: map<nat, Saved>, spaces: map<nat, Space>) {
    procs.Keys == spaces.Keys && forall pid :: pid in procs ==> Same(procs[pid], spaces[pid])
  }

  /** What an operation of a process may rely on. */
  ghost predicate Workable(w: Words, free: set<nat>, p: Space, shms: map<nat, set<nat>>) {
    && Owns(w, p.mem, FramesOf(shms, p.used)) && Indexed(p.mem, p.used, shms) && InOrder(p.mem, p.bounds)
    && free !! SetOf(p.mem.frames) && free !! FramesOf(shms, p.used) && FramesOf(shms, p.used) !! SetOf(p.mem.frames)
  }

  lemma SaneWorkable(s: Sys, all: set<nat>, pid: nat)
    requires Sane(s, all) && pid in s.procs
    ensures Workable(s.words, s.free, s.procs[pid], s.shms)
  {
    var own: Owners :| Inv(s, own) && own.Keys == all;
    assert SpaceInv(s.words, s.shms, s.kroot, s.procs[pid]);
    Ready(s, own, pid, s.procs[pid].used);
  }

  /** What it leaves: it kept to its memory, its invariant holds, and its page table shows
      the steps `ops` more. */
  ghost predicate Stepped(w: Words, free: set<nat>, p: Space, w2: Words, free2: set<nat>, m2: Memory, b2: Bounds, shms: map<nat, set<nat>>, ops: Log) {
    && Owns(w2, m2, FramesOf(shms, p.used)) && Local(w, free, p.mem, w2, free2, m2) && Indexed(m2, p.used, shms)
    && Does(w, w2, p.mem.root, ops) && InOrder(m2, b2)
  }

  lemma SteppedSane(s: Sys, all: set<nat>, pid: nat, w2: Words, free2: set<nat>, m2: Memory, b2: Bounds, ops: Log)
    requires Sane(s, all) && pid in s.procs && Stepped(s.words, s.free, s.procs[pid], w2, free2, m2, b2, s.shms, ops)
    ensures Sane(AfterProc(s, pid, w2, free2, m2, b2, ops), all)
  {
    var own: Owners :| Inv(s, own) && own.Keys == all;
    var own2 := ProcKeeps(s, own, pid, w2, free2, m2, b2, ops);
  }

  lemma PutBack(procs: map<nat, Saved>, s: Sys, pid: nat, v: Saved, s2: Sys)
    requires Tabled(procs, s.procs) && pid in s2.procs && s2.procs == s.procs[pid := s2.procs[pid]] && Same(v, s2.procs[pid])
    ensures Tabled(procs[pid := v], s2.procs)
  {
  }

  class Machine {
    const pt: PageTables
    const shm: Shm.ShmTable
    const kroot: nat
    var procs: map<nat, Saved>
    var nextPid: nat

    /** `s` is what page tables, bitmap, shared objects and process table hold. */
    ghost predicate Holds(s: Sys)
      reads this, pt, pt.pmm, pt.pmm.bits, shm
    {
      StoreReady(procs, s)
    }

    /** The machine after boot. */
    constructor (pt: PageTables, shm: Shm.ShmTable, kroot: nat, ghost krole: Roles)
      requires pt.Valid() && shm.pmm == pt.pmm && shm.objs == []
      ensures Holds(Sys(pt.words, pt.pmm.Free(), kroot, krole, map[], map[]))
      ensures this.pt == pt && this.shm == shm && procs == map[]
    {
      this.pt, this.shm, this.kroot := pt, shm, kroot;
      procs, nextPid := map[], 1;
      new;
      assert ShmFrames(shm.objs) == map[];
    }

    /** With the process table `after` the machine holds `s2`. */
    ghost predicate StoreReady(after: map<nat, Saved>, s2: Sys)
      reads this, pt, pt.pmm, pt.pmm.bits, shm
    {
      && pt.Valid() && shm.pmm == pt.pmm && ObjectsOk(shm.objs)
      && s2.words == pt.words && s2.free == pt.pmm.Free() && s2.kroot == kroot && s2.shms == ShmFrames(shm.objs)
      && Tabled(after, s2.procs) && forall q :: q in after ==> q < nextPid
    }

    method Store(after: map<nat, Saved>, ghost s2: Sys)
      requires StoreReady(after, s2)
      modifies this`procs
      ensures procs == after && Holds(s2)
    {
      procs := after;
    }

    /** A memory operation of process `pid`. */
    method Act(pid: nat, op: ProcOp, ghost s: Sys) returns (ghost ops: Log, ghost s2: Sys)
      requires Holds(s) && pid in procs && pid in s.procs && Workable(s.words, s.free, s.procs[pid], s.shms) && Suits(op, s.procs[pid], s.shms)
      modifies this`procs, pt, pt.pmm.bits
      ensures Holds(s2) && Acts(s, pid, op, ops, s2) && unchanged(shm)
    {
      var after;
      after, ops, s2 := Effect(pid, op, s);
      Store(after, s2);
    }

    /** Its effect, and the process table that is then to be stored. */
    method Effect(pid: nat, op: ProcOp, ghost s: Sys) returns (after: map<nat, Saved>, ghost ops: Log, ghost s2: Sys)
      requires Holds(s) && pid in procs && pid in s.procs && Workable(s.words, s.free, s.procs[pid], s.shms) && Suits(op, s.procs[pid], s.shms)
      modifies pt, pt.pmm.bits
      ensures StoreReady(after, s2) && Acts(s, pid, op, ops, s2)
    {
      assert Same(procs[pid], s.procs[pid]);
      var v;
      v, ops, s2 := Work(procs[pid], pt, pid, op, s);
      PutBack(procs, s, pid, v, s2);
      after := procs[pid := v];
    }

    /** A new process, or none when anything fails. */
    method Create(v: nat, perms: seq<Perm>, low: nat, native: bool, heapStart: nat, ghost s: Sys)
      returns (pid: Option<nat>, ghost s2: Sys, ghost p: Space)
      requires Holds(s) && KernelInv(s.words, s.kroot, s.krole) && s.krole.Keys !! s.free && ImageOk(perms, low)
      modifies this`procs, this`nextPid, pt, pt.pmm.bits
      ensures Holds(s2) && SameOutside(s.words, pt.words, s.free) && unchanged(shm)
      ensures pid.None? ==> s2 == s.(words := pt.words)
      ensures pid.Some? ==>
                && pid.value !in s.procs && s2 == AfterSpawn(s, pid.value, pt.words, pt.pmm.Free(), p.mem, p.bounds, p.log)
                && pid.value in s2.procs && s2.procs[pid.value] == p
                && Started(s.words, s.free, s.kroot, pt.words, pt.pmm.Free(), p) && MakesSpawn(v, perms, low, native, heapStart, pt.words, p)
    {
      var saved;
      saved, p := Furnished(pt, kroot, s.krole, v, perms, low, native, heapStart);
      pid := None;
      if saved.Some? {
        pid := Some(nextPid);
        NewEntry(procs, s, nextPid, saved.value, pt.words, pt.pmm.Free(), p);
        s2 := AfterSpawn(s, nextPid, pt.words, pt.pmm.Free(), p.mem, p.bounds, p.log);
        nextPid := nextPid + 1;
        Store(procs[pid.value := saved.value], s2);
      } else {
        s2 := s.(words := pt.words);
      }
    }

    /** A reaped process: its frames go back. */
    method Reap(pid: nat, ghost s: Sys) returns (ghost s2: Sys)
      requires Holds(s) && pid in procs && pid in s.procs && Workable(s.words, s.free, s.procs[pid], s.shms)
      modifies this`procs, pt.pmm.bits
      ensures Holds(s2) && s2 == AfterReap(s, pid) && unchanged(shm)
    {
      assert Same(procs[pid], s.procs[pid]);
      Release(procs[pid], pt, s.procs[pid]);
      s2 := AfterReap(s, pid);
      Store(procs - {pid}, s2);
    }

    // ---- shared objects -------------------------------------------------------------------

    method ShmCreate(ghost s: Sys) returns (id: nat, ghost s2: Sys)
      requires Holds(s) && Shm.Sound(shm.objs, s.free)
      modifies shm
      ensures Holds(s2) && id !in s.shms && s2 == AfterShm(s, id, {}) && TookSlot(old(shm.objs), id, Shm.SharedMem(0, 0, 0, 1), shm.objs)
    {
      ghost var before := shm.objs;
      id := shm.Create();
      FramesPut(before, shm.objs, id);
      assert Range(0, 0) == {};
      s2 := AfterShm(s, id, {});
    }

    method ShmDup(id: nat, ghost s: Sys)
      requires Holds(s) && Shm.Sound(shm.objs, s.free)
      modifies shm
      ensures Holds(s) && shm.objs == Shm.Taken(old(shm.objs), id)
    {
      ghost var before := shm.objs;
      shm.Dup(id);
      FramesKept(before, shm.objs);
    }

    /** The last reference frees the object. */
    method ShmClose(id: nat, ghost s: Sys) returns (ghost s2: Sys)
      requires Holds(s) && Shm.Sound(shm.objs, s.free)
      modifies shm, pt.pmm.bits
      ensures Holds(s2) && shm.objs == Shm.Dropped(old(shm.objs), id)
      ensures if Shm.RefCount(old(shm.objs), id) == 1 then id in s.shms && s2 == AfterClose(s, id) else s2 == s
    {
      ghost var before := shm.objs;
      shm.Close(id);
      if Shm.RefCount(before, id) == 1 {
        FramesGone(before, shm.objs, id);
        s2 := AfterClose(s, id);
      } else {
        FramesKept(before, shm.objs);
        s2 := s;
      }
    }

    method ShmTruncate(id: nat, size: nat, ghost s: Sys) returns (ok: bool, ghost s2: Sys, ghost frames: set<nat>)
      requires Holds(s) && Shm.Sound(shm.objs, s.free)
      modifies shm, pt.pmm.bits
      ensures Holds(s2)
      ensures ok ==> Shm.Live(old(shm.objs), id) && Shm.Live(shm.objs, id)
      ensures if ok then shm.objs == old(shm.objs)[id := Some(Shm.Resized(old(shm.objs)[id].value, size, shm.objs[id].value.phys))] else shm.objs == old(shm.objs)
      ensures ok && !Shm.Stays(old(shm.objs)[id].value, size) ==> frames == Shm.Backing(shm.objs, id)
      ensures Shm.Live(old(shm.objs), id) ==> (ok <==> Shm.Stays(old(shm.objs)[id].value, size) || Shm.RunFree(s.free, pt.pmm.last, Shm.Pages(size)))
      ensures if ok && !Shm.Stays(old(shm.objs)[id].value, size) then id in s.shms && frames <= s.free && s2 == AfterShm(s, id, frames) else s2 == s
    {
      ghost var before := shm.objs;
      ok := shm.Truncate(id, size);
      frames, s2 := {}, s;
      if ok && !Shm.Stays(before[id].value, size) {
        frames := Shm.Backing(shm.objs, id);
        FramesPut(before, shm.objs, id);
        s2 := AfterShm(s, id, frames);
      } else {
        FramesKept(before, shm.objs);
      }
    }

    // ---- the kernel's own map ---------------------------------------------------------------

    method KernelMap(virt: nat, phys: nat, perm: Perm, ghost s: Sys) returns (ok: bool, ghost s2: Sys, ghost added: seq<nat>)
      requires Holds(s) && KernelInv(s.words, s.kroot, s.krole) && s.krole.Keys !! s.free && !perm.user
      modifies pt, pt.pmm.bits
      ensures Holds(s2) && s2 == AfterKernel(s, pt.words, pt.pmm.Free(), s2.krole)
      ensures Grown(s.words, s2.words, s.kroot, s.krole, s2.krole, s.free, s2.free, added) && NoUserPage(s2.words, s.kroot)
      ensures KernelMaps(s, virt, phys, perm, ok, s2) && unchanged(shm)
    {
      ghost var role2;
      ok, added, role2 := pt.MapPage(kroot, virt, phys, perm, s.krole);
      NoUserAfter(s.words, pt.words, kroot, virt / PAGE_SIZE, phys / PAGE_SIZE, if ok then 1 else 0, perm);
      s2 := AfterKernel(s, pt.words, pt.pmm.Free(), role2);
    }

    method KernelUnmap(virt: nat, ghost s: Sys) returns (ok: bool, ghost s2: Sys, ghost added: seq<nat>)
      requires Holds(s) && KernelInv(s.words, s.kroot, s.krole) && s.krole.Keys !! s.free
      modifies pt, pt.pmm.bits
      ensures Holds(s2) && s2 == AfterKernel(s, pt.words, pt.pmm.Free(), s2.krole)
      ensures Grown(s.words, s2.words, s.kroot, s.krole, s2.krole, s.free, s2.free, added) && NoUserPage(s2.words, s.kroot)
      ensures KernelUnmaps(s, virt, ok, s2) && unchanged(shm)
    {
      ghost var role2;
      ok, added, role2 := pt.UnmapPage(kroot, virt, s.krole);
      assert NoUserPage(pt.words, kroot);
      s2 := AfterKernel(s, pt.words, pt.pmm.Free(), role2);
    }
  }

  /** The kernel's map shows one page more, or what it showed. */
  ghost predicate KernelMaps(s: Sys, virt: nat, phys: nat, perm: Perm, ok: bool, s2: Sys) {
    Mapped(s.words, s2.words, s.kroot, virt / PAGE_SIZE, phys / PAGE_SIZE, if ok then 1 else 0, perm)
  }

  /** One page less, or what it showed. */
  ghost predicate KernelUnmaps(s: Sys, virt: nat, ok: bool, s2: Sys) {
    if ok then Unmapped(s.words, s2.words, s.kroot, virt / PAGE_SIZE, 1) else SameWalks(s.words, s2.words, s.kroot)
  }

  /** A new process's space, started from the kernel's map with frames that were free. */
  ghost predicate Started(w: Words, free: set<nat>, kroot: nat, w2: Words, free2: set<nat>, p: Space) {
    && SetOf(p.mem.frames) <= free && free2 == free - SetOf(p.mem.frames) && Owns(w2, p.mem, {}) && InOrder(p.mem, p.bounds)
    && (forall a :: 0 <= a < |p.mem.maps| ==> p.mem.maps[a].shm.None?) && Explained(w2, p.mem.root, p.log, w, kroot)
  }

  /** Its log is the steps that set it up, its records and bounds are those of a new process, and
      an image clear of the reserved pages leaves records and page table in agreement. */
  ghost predicate MakesSpawn(v: nat, perms: seq<Perm>, low: nat, native: bool, heapStart: nat, w2: Words, p: Space) {
    && STACK_LOW_PAGE <= low <= STACK_TOP_PAGE && (ImageClear(v, |perms|) ==> Agrees(w2, p.mem))
    && p.bounds == Bounds(p.bounds.stackBase, low, heapStart, heapStart * PAGE_SIZE, MMAP_BASE)
    && exists f: nat, stub: nat ::
         && p.mem.maps == InitialMaps(v, f, |perms|, p.bounds.stackBase, native, stub)
         && p.log == SetupOps(v, f, perms, low, Proc.StackFrame(p.bounds.stackBase, low), native, stub)
  }

  method Furnished(pt: PageTables, kroot: nat, ghost krole: Roles, v: nat, perms: seq<Perm>, low: nat, native: bool, heapStart: nat)
    returns (saved: Option<Saved>, ghost p: Space)
    requires pt.Valid() && KernelInv(pt.words, kroot, krole) && krole.Keys !! pt.pmm.Free() && ImageOk(perms, low)
    modifies pt, pt.pmm.bits
    ensures pt.Valid() && SameOutside(old(pt.words), pt.words, old(pt.pmm.Free()))
    ensures saved.None? ==> pt.pmm.Free() == old(pt.pmm.Free())
    ensures saved.Some? ==> Same(saved.value, p) && Started(old(pt.words), old(pt.pmm.Free()), kroot, pt.words, pt.pmm.Free(), p)
                            && MakesSpawn(v, perms, low, native, heapStart, pt.words, p) && p == Space(p.mem, p.bounds, {}, p.log, old(pt.words))
  {
    ghost var w0 := pt.words;
    var proc, f, stub := SpawnProcess(pt, kroot, krole, v, perms, low, native, heapStart, {});
    saved := None;
    p := Space(Memory(0, map[], [], []), Bounds(0, 0, 0, 0, 0), {}, [], w0);
    if proc != null {
      saved := Some(proc.Save());
      ghost var log := SetupOps(v, f, perms, low, Proc.StackFrame(proc.stackBase, low), native, stub);
      p := Space(proc.Mem(), proc.Edges(), {}, log, w0);
      assert proc.maps[1] == Proc.StackRange(proc.stackBase);
    }
  }

  lemma NewEntry(procs: map<nat, Saved>, s: Sys, pid: nat, v: Saved, w2: Words, free2: set<nat>, p: Space)
    requires Tabled(procs, s.procs) && pid !in procs && Same(v, p)
    ensures Tabled(procs[pid := v], AfterSpawn(s, pid, w2, free2, p.mem, p.bounds, p.log).procs)
  {
  }

  method Release(v: Saved, pt: PageTables, ghost p: Space)
    requires pt.Valid() && Same(v, p) && Distinct(p.mem.frames) && (forall x :: x in p.mem.frames ==> x < FRAME_COUNT)
    requires pt.pmm.Free() !! SetOf(p.mem.frames)
    modifies pt.pmm.bits
    ensures pt.Valid() && pt.pmm.Free() == old(pt.pmm.Free()) + SetOf(p.mem.frames)
  {
    var proc := new Proc.Restore(v, p.mem.role);
    proc.FreeProcess(pt);
  }

  /** `s2` is `s` after operation `op` of process `pid`, which made the steps `ops`. */
  ghost predicate Acts(s: Sys, pid: nat, op: ProcOp, ops: Log, s2: Sys)
    requires pid in s.procs
  {
    exists m2: Memory, b2: Bounds :: ActsTo(s, pid, op, ops, s2, m2, b2)
  }

  ghost predicate ActsTo(s: Sys, pid: nat, op: ProcOp, ops: Log, s2: Sys, m2: Memory, b2: Bounds)
    requires pid in s.procs
  {
    && InOrder(s.procs[pid].mem, s.procs[pid].bounds)
    && Stepped(s.words, s.free, s.procs[pid], s2.words, s2.free, m2, b2, s.shms, ops)
    && Makes(op, s.procs[pid], s.free, ops, m2, b2) && KeepsAgreement(op, s.procs[pid], s.words, s2.words, m2)
    && s2 == AfterProc(s, pid, s2.words, s2.free, m2, b2, ops)
  }

  lemma ActsSane(s: Sys, all: set<nat>, pid: nat, op: ProcOp, ops: Log, s2: Sys)
    requires Sane(s, all) && pid in s.procs && Acts(s, pid, op, ops, s2)
    ensures Sane(s2, all)
  {
    var m2: Memory, b2: Bounds :| ActsTo(s, pid, op, ops, s2, m2, b2);
    SteppedSane(s, all, pid, s2.words, s2.free, m2, b2, ops);
  }

  /** Takes a process out of the table and operates on it. */
  method Work(v: Saved, pt: PageTables, pid: nat, op: ProcOp, ghost s: Sys) returns (v2: Saved, ghost ops: Log, ghost s2: Sys)
    requires pt.Valid() && s.words == pt.words && s.free == pt.pmm.Free() && pid in s.procs && Same(v, s.procs[pid])
    requires Workable(pt.words, pt.pmm.Free(), s.procs[pid], s.shms) && Suits(op, s.procs[pid], s.shms)
    modifies pt, pt.pmm.bits
    ensures pt.Valid() && s2.words == pt.words && s2.free == pt.pmm.Free() && s2.kroot == s.kroot && s2.shms == s.shms
    ensures pid in s2.procs && s2.procs == s.procs[pid := s2.procs[pid]] && Same(v2, s2.procs[pid]) && Acts(s, pid, op, ops, s2)
  {
    ghost var was := s.procs[pid];
    var p := new Proc.Restore(v, was.mem.role);
    assert p.Mem() == was.mem;
    ops := Do(p, pt, op, was, s.shms);
    v2 := p.Save();
    s2 := AfterProc(s, pid, pt.words, pt.pmm.Free(), p.Mem(), p.Edges(), ops);
    assert ActsTo(s, pid, op, ops, s2, p.Mem(), p.Edges());
  }

  // ---- the operations of a process -----------------------------------------------------------------

  datatype ProcOp =
    | Brk(requested: nat)
    | Mmap(at: Option<nat>, len: nat, writable: bool, executable: bool)
    | MmapShared(at: Option<nat>, id: nat, f: nat, n: nat, writable: bool, executable: bool)
    | Munmap(addr: nat, len: nat)
    | Mprotect(addr: nat, len: nat, writable: bool, executable: bool)
    | Fault(address: nat)

  /** A shared mapping is of frames of an object the process counts as mapped; and the
      stack region stays recorded. */
  ghost predicate Suits(op: ProcOp, p: Space, shms: map<nat, set<nat>>) {
    match op
    case MmapShared(_, id, f, n, _, _) => id in p.used && id in shms && Range(f, n) <= shms[id]
    case Munmap(addr, len) => !Inside(Proc.StackRange(p.bounds.stackBase), FirstPage(addr), EndPage(addr, len))
    case _ => true
  }

  /** One step maps up to `n` pages from `v` on; the range is recorded exactly when that is
      all of them. */
  ghost predicate MapsAt(maps: seq<Mapping>, maps2: seq<Mapping>, v: nat, n: nat, shm: Option<nat>, perm: Perm, ops: Log) {
    && |ops| == 1 && ops[0].MapOp? && ops[0].v == v && ops[0].k <= n && ops[0].perm == perm
    && maps2 == if ops[0].k == n then maps + [Mapping(v, ops[0].f, n, shm)] else maps
  }

  /** The frames it maps were free. */
  ghost predicate FromFree(ops: Log, n: nat, free: set<nat>)
    requires |ops| == 1 && ops[0].MapOp?
  {
    ops[0].k > 0 ==> Range(ops[0].f, n) <= free
  }

  /** The steps of `mprotect` of `n` pages from `v` on: up to the first unrecorded page. */
  ghost predicate Protects(maps: seq<Mapping>, v: nat, n: nat, perm: Perm, ops: Log) {
    exists k: nat :: k <= n && Proc.Recorded(maps, v, k) && ops == ProtectOps(maps, v, k, perm) && Proc.Stops(maps, v, n, k)
  }

  lemma ProtectSteps(w: Words, w2: Words, m: Memory, v: nat, n: nat, k: nat, perm: Perm) returns (ops: Log)
    requires k <= n && Proc.Protected(w, w2, m, v, k, perm) && Proc.Stops(m.maps, v, n, k)
    ensures Protects(m.maps, v, n, perm, ops) && Does(w, w2, m.root, ops)
  {
    DoesProtect(w, w2, m, v, k, perm);
    ops := ProtectOps(m.maps, v, k, perm);
  }

  /** The first page above the break. */
  function BreakPage(b: Bounds): nat
    requires b.heapEnd >= b.heapStart * PAGE_SIZE
  {
    b.heapStart + PagesFor(b.heapEnd - b.heapStart * PAGE_SIZE)
  }

  function BreakNeeds(b: Bounds, requested: nat): nat
    requires b.heapEnd >= b.heapStart * PAGE_SIZE
  {
    Proc.NeedsPages(b.heapStart, b.heapEnd, requested)
  }

  /** `brk`: the break moves exactly when every page it needs could be mapped. */
  ghost predicate MakesBrk(requested: nat, m: Memory, b: Bounds, free: set<nat>, ops: Log, m2: Memory, b2: Bounds)
    requires InOrder(m, b)
  {
    var n := BreakNeeds(b, requested);
    if n == 0 then
      ops == [] && m2 == m && b2 == if requested >= b.heapStart * PAGE_SIZE then b.(heapEnd := requested) else b
    else
      && MapsAt(m.maps, m2.maps, BreakPage(b), n, None, UserPerm(true, false), ops) && FromFree(ops, n, free)
      && b2 == if ops[0].k == n then b.(heapEnd := requested) else b
  }

  /** `mmap` of `n` pages: an arena mapping that worked moves the arena on. */
  ghost predicate MakesMap(at: Option<nat>, n: nat, shm: Option<nat>, perm: Perm, m: Memory, b: Bounds, ops: Log, m2: Memory, b2: Bounds) {
    var place := Proc.Place(at, b.mmapNext, n);
    if n == 0 || place.None? then ops == [] && m2 == m && b2 == b
    else
      && MapsAt(m.maps, m2.maps, place.value, n, shm, perm, ops)
      && b2 == if ops[0].k == n && at.None? then b.(mmapNext := place.value + n) else b
  }

  /** What an operation makes: its steps in the page table, and the records, frames and bounds
      it leaves. */
  ghost predicate Makes(op: ProcOp, p: Space, free: set<nat>, ops: Log, m2: Memory, b2: Bounds)
    requires InOrder(p.mem, p.bounds)
  {
    var m, b := p.mem, p.bounds;
    match op
    case Brk(requested) => MakesBrk(requested, m, b, free, ops, m2, b2)
    case Mmap(at, len, writable, executable) =>
      && MakesMap(at, PageCount(len), None, UserPerm(writable, executable), m, b, ops, m2, b2)
      && (ops != [] ==> FromFree(ops, PageCount(len), free))
    case MmapShared(at, id, f, n, writable, executable) =>
      && MakesMap(at, n, Some(id), UserPerm(writable, executable), m, b, ops, m2, b2)
      && (ops != [] ==> ops[0].f == f)
    case Munmap(addr, len) =>
      var s, e := FirstPage(addr), EndPage(addr, len);
      ops == DropOps(m.maps, s, e) && m2 == m.(maps := Keep(m.maps, s, e), frames := KeepFrames(m.frames, m.maps, s, e)) && b2 == b
    case Mprotect(addr, len, writable, executable) =>
      Protects(m.maps, FirstPage(addr), PageCount(len), UserPerm(writable, executable), ops) && m2 == m && b2 == b
    case Fault(address) =>
      var q := FirstPage(address);
      ops == GrowOps(q, b.stackLow, b.stackBase) && m2 == m && b2 == if ops != [] then b.(stackLow := q) else b
  }

  /** The pages it may map lie outside every recorded range. */
  ghost predicate PlacedClear(op: ProcOp, p: Space)
    requires InOrder(p.mem, p.bounds)
  {
    var b := p.bounds;
    match op
    case Brk(requested) => Clear(p.mem, BreakPage(b), BreakNeeds(b, requested))
    case Mmap(at, len, _, _) => PlaceClear(p.mem, Proc.Place(at, b.mmapNext, PageCount(len)), PageCount(len))
    case MmapShared(at, _, _, n, _, _) => PlaceClear(p.mem, Proc.Place(at, b.mmapNext, n), n)
    case _ => true
  }

  ghost predicate PlaceClear(m: Memory, place: Option<nat>, n: nat) { place.Some? ==> Clear(m, place.value, n) }

  /** Placed clear, it keeps records and page table in agreement. */
  ghost predicate KeepsAgreement(op: ProcOp, p: Space, w: Words, w2: Words, m2: Memory)
    requires InOrder(p.mem, p.bounds)
  {
    PlacedClear(op, p) && Agrees(w, p.mem) ==> Agrees(w2, m2)
  }

  method Do(p: Proc, pt: PageTables, op: ProcOp, ghost was: Space, ghost shms: map<nat, set<nat>>) returns (ghost ops: Log)
    requires Loaded(p, pt, was, shms) && Suits(op, was, shms)
    modifies p, pt, pt.pmm.bits
    ensures Did(op, was, old(pt.words), old(pt.pmm.Free()), p, pt, shms, ops)
  {
    match op
    case Brk(requested) => ops := DoBrk(p, pt, requested, was, shms);
    case Mmap(at, len, writable, executable) => ops := DoMmap(p, pt, at, len, writable, executable, was, shms);
    case MmapShared(at, id, f, n, writable, executable) => ops := DoShared(p, pt, at, id, f, n, writable, executable, was, shms);
    case Munmap(addr, len) => ops := DoMunmap(p, pt, addr, len, was, shms);
    case Mprotect(addr, len, writable, executable) => ops := DoMprotect(p, pt, addr, len, writable, executable, was, shms);
    case Fault(address) => ops := DoFault(p, pt, address, was, shms);
  }

  /** The process object holds `was`, which the invariant is known of. */
  ghost predicate Loaded(p: Proc, pt: PageTables, was: Space, shms: map<nat, set<nat>>)
    reads p, pt, pt.pmm, pt.pmm.bits
  {
    pt.Valid() && was.mem == p.Mem() && was.bounds == p.Edges() && Workable(pt.words, pt.pmm.Free(), was, shms)
  }

  /** The operation of the process that was `was` is done. */
  ghost predicate Did(op: ProcOp, was: Space, w: Words, free: set<nat>, p: Proc, pt: PageTables, shms: map<nat, set<nat>>, ops: Log)
    requires InOrder(was.mem, was.bounds)
    reads p, pt, pt.pmm, pt.pmm.bits
  {
    && pt.Valid() && Stepped(w, free, was, pt.words, pt.pmm.Free(), p.Mem(), p.Edges(), shms, ops)
    && Makes(op, was, free, ops, p.Mem(), p.Edges()) && KeepsAgreement(op, was, w, pt.words, p.Mem())
  }

  /** A range mapped, or part of one. */
  lemma MappedSteps(w: Words, w2: Words, m: Memory, m2: Memory, r: Mapping, k: nat, perm: Perm, ok: bool, used: set<nat>, shms: map<nat, set<nat>>, base: nat)
    requires RangeMapped(w, m, w2, m2, r, k, perm, ok) && Indexed(m, used, shms) && Proc.StackRange(base) in m.maps
    requires r.shm.Some? ==> r.shm.value in used && r.shm.value in shms && Range(r.f, r.n) <= shms[r.shm.value]
    ensures Does(w, w2, m.root, [MapOp(r.v, r.f, k, perm)]) && Indexed(m2, used, shms) && Proc.StackRange(base) in m2.maps
    ensures 0 < r.n ==> MapsAt(m.maps, m2.maps, r.v, r.n, r.shm, perm, [MapOp(r.v, r.f, k, perm)]) && (ok <==> k == r.n)
    ensures Clear(m, r.v, r.n) && Agrees(w, m) ==> Agrees(w2, m2)
  {
    DoesMap(w, w2, m.root, r.v, r.f, k, perm);
    IndexedMore(m, m2, r, ok, used, shms);
  }

  method DoBrk(p: Proc, pt: PageTables, requested: nat, ghost was: Space, ghost shms: map<nat, set<nat>>) returns (ghost ops: Log)
    requires Loaded(p, pt, was, shms)
    modifies p, pt, pt.pmm.bits
    ensures Did(Brk(requested), was, old(pt.words), old(pt.pmm.Free()), p, pt, shms, ops)
  {
    ghost var w0, free0 := pt.words, pt.pmm.Free();
    var r, v, n, f, k, ok := p.Brk(pt, requested, FramesOf(shms, was.used));
    ops := BrkSteps(w0, pt.words, free0, was, p.Mem(), p.Edges(), requested, v, n, f, k, ok, shms);
  }

  lemma BrkSteps(w: Words, w2: Words, free: set<nat>, was: Space, m2: Memory, b2: Bounds, requested: nat, v: nat, n: nat, f: nat, k: nat, ok: bool, shms: map<nat, set<nat>>)
    returns (ops: Log)
    requires InOrder(was.mem, was.bounds) && Indexed(was.mem, was.used, shms)
    requires v == BreakPage(was.bounds) && n == BreakNeeds(was.bounds, requested)
    requires n == 0 ==> ok && w2 == w && m2 == was.mem
    requires n > 0 ==> RangeMapped(w, was.mem, w2, m2, Mapping(v, f, n, None), k, UserPerm(true, false), ok)
    requires k > 0 ==> Range(f, n) <= free
    requires b2 == if requested >= was.bounds.heapStart * PAGE_SIZE && ok then was.bounds.(heapEnd := requested) else was.bounds
    ensures Does(w, w2, was.mem.root, ops) && Indexed(m2, was.used, shms) && InOrder(m2, b2)
    ensures MakesBrk(requested, was.mem, was.bounds, free, ops, m2, b2)
    ensures Clear(was.mem, v, n) && Agrees(w, was.mem) ==> Agrees(w2, m2)
  {
    ops := [];
    if n > 0 {
      ops := [MapOp(v, f, k, UserPerm(true, false))];
      MappedSteps(w, w2, was.mem, m2, Mapping(v, f, n, None), k, UserPerm(true, false), ok, was.used, shms, was.bounds.stackBase);
    } else {
      DoesNothing(w, w2, was.mem.root);
    }
  }

  method DoMmap(p: Proc, pt: PageTables, at: Option<nat>, len: nat, writable: bool, executable: bool, ghost was: Space, ghost shms: map<nat, set<nat>>)
    returns (ghost ops: Log)
    requires Loaded(p, pt, was, shms)
    modifies p, pt, pt.pmm.bits
    ensures Did(Mmap(at, len, writable, executable), was, old(pt.words), old(pt.pmm.Free()), p, pt, shms, ops)
  {
    ghost var w0, n, perm := pt.words, PageCount(len), UserPerm(writable, executable);
    var v, f, k := p.Mmap(pt, at, len, writable, executable, FramesOf(shms, was.used));
    ops := MapSteps(w0, pt.words, was, p.Mem(), p.Edges(), at, n, None, f, k, perm, v.Some?, shms);
  }

  lemma MapSteps(w: Words, w2: Words, was: Space, m2: Memory, b2: Bounds, at: Option<nat>, n: nat, shm: Option<nat>, f: nat, k: nat, perm: Perm, ok: bool, shms: map<nat, set<nat>>)
    returns (ops: Log)
    requires InOrder(was.mem, was.bounds) && Indexed(was.mem, was.used, shms)
    requires shm.Some? ==> shm.value in was.used && shm.value in shms && Range(f, n) <= shms[shm.value]
    requires var place := Proc.Place(at, was.bounds.mmapNext, n);
             if n == 0 || place.None? then w2 == w && m2 == was.mem && b2 == was.bounds
             else
               && RangeMapped(w, was.mem, w2, m2, Mapping(place.value, f, n, shm), k, perm, ok)
               && b2 == if ok && at.None? then was.bounds.(mmapNext := place.value + n) else was.bounds
    ensures Does(w, w2, was.mem.root, ops) && Indexed(m2, was.used, shms) && InOrder(m2, b2)
    ensures MakesMap(at, n, shm, perm, was.mem, was.bounds, ops, m2, b2) && (ops != [] ==> ops[0].MapOp? && ops[0].f == f && ops[0].k == k)
    ensures PlaceClear(was.mem, Proc.Place(at, was.bounds.mmapNext, n), n) && Agrees(w, was.mem) ==> Agrees(w2, m2)
  {
    var place := Proc.Place(at, was.bounds.mmapNext, n);
    ops := [];
    if n > 0 && place.Some? {
      ops := [MapOp(place.value, f, k, perm)];
      MappedSteps(w, w2, was.mem, m2, Mapping(place.value, f, n, shm), k, perm, ok, was.used, shms, was.bounds.stackBase);
    } else {
      DoesNothing(w, w2, was.mem.root);
    }
  }

  method DoShared(p: Proc, pt: PageTables, at: Option<nat>, id: nat, f: nat, n: nat, writable: bool, executable: bool, ghost was: Space, ghost shms: map<nat, set<nat>>)
    returns (ghost ops: Log)
    requires Loaded(p, pt, was, shms) && Suits(MmapShared(at, id, f, n, writable, executable), was, shms)
    modifies p, pt, pt.pmm.bits
    ensures Did(MmapShared(at, id, f, n, writable, executable), was, old(pt.words), old(pt.pmm.Free()), p, pt, shms, ops)
  {
    ghost var w0, perm := pt.words, UserPerm(writable, executable);
    assert Range(f, n) <= FramesOf(shms, was.used);
    var v, k := p.MmapShared(pt, at, id, f, n, writable, executable, FramesOf(shms, was.used));
    ops := MapSteps(w0, pt.words, was, p.Mem(), p.Edges(), at, n, Some(id), f, k, perm, v.Some?, shms);
  }

  method DoMunmap(p: Proc, pt: PageTables, addr: nat, len: nat, ghost was: Space, ghost shms: map<nat, set<nat>>) returns (ghost ops: Log)
    requires Loaded(p, pt, was, shms) && Suits(Munmap(addr, len), was, shms)
    modifies p, pt, pt.pmm.bits
    ensures Did(Munmap(addr, len), was, old(pt.words), old(pt.pmm.Free()), p, pt, shms, ops)
  {
    ghost var w0, free0 := pt.words, pt.pmm.Free();
    p.Munmap(pt, addr, len, FramesOf(shms, was.used));
    ops := MunmapSteps(w0, free0, pt.words, was, p.Mem(), addr, len, shms);
  }

  lemma MunmapSteps(w: Words, free: set<nat>, w2: Words, was: Space, m2: Memory, addr: nat, len: nat, shms: map<nat, set<nat>>)
    returns (ops: Log)
    requires InOrder(was.mem, was.bounds) && Indexed(was.mem, was.used, shms) && Suits(Munmap(addr, len), was, shms)
    requires m2 == was.mem.(maps := Keep(was.mem.maps, FirstPage(addr), EndPage(addr, len)), frames := KeepFrames(was.mem.frames, was.mem.maps, FirstPage(addr), EndPage(addr, len)))
    requires DroppedFrom(w, w2, was.mem.root, was.mem.maps, FirstPage(addr), EndPage(addr, len))
    ensures Does(w, w2, was.mem.root, ops) && Indexed(m2, was.used, shms) && InOrder(m2, was.bounds)
    ensures Makes(Munmap(addr, len), was, free, ops, m2, was.bounds)
  {
    var s, e := FirstPage(addr), EndPage(addr, len);
    ops := DropOps(was.mem.maps, s, e);
    DroppedSteps(w, w2, was.mem, m2, s, e, was.used, shms, was.bounds.stackBase);
  }

  lemma DroppedSteps(w: Words, w2: Words, m: Memory, m2: Memory, s: nat, e: nat, used: set<nat>, shms: map<nat, set<nat>>, base: nat)
    requires m2.maps == Keep(m.maps, s, e) && DroppedFrom(w, w2, m.root, m.maps, s, e) && Indexed(m, used, shms)
    requires Proc.StackRange(base) in m.maps && !Inside(Proc.StackRange(base), s, e)
    ensures Does(w, w2, m.root, DropOps(m.maps, s, e)) && Indexed(m2, used, shms) && Proc.StackRange(base) in m2.maps
  {
    DoesDrop(w, w2, m.root, m.maps, s, e);
    IndexedFewer(m, m2, s, e, used, shms);
    KeepIs(m.maps, s, e, Proc.StackRange(base));
  }

  method DoMprotect(p: Proc, pt: PageTables, addr: nat, len: nat, writable: bool, executable: bool, ghost was: Space, ghost shms: map<nat, set<nat>>)
    returns (ghost ops: Log)
    requires Loaded(p, pt, was, shms)
    modifies p, pt, pt.pmm.bits
    ensures Did(Mprotect(addr, len, writable, executable), was, old(pt.words), old(pt.pmm.Free()), p, pt, shms, ops)
  {
    ghost var w0, v, n := pt.words, FirstPage(addr), PageCount(len);
    var ok, k := p.Mprotect(pt, addr, len, writable, executable, FramesOf(shms, was.used));
    ops := ProtectSteps(w0, pt.words, was.mem, v, n, k, UserPerm(writable, executable));
  }

  method DoFault(p: Proc, pt: PageTables, address: nat, ghost was: Space, ghost shms: map<nat, set<nat>>) returns (ghost ops: Log)
    requires Loaded(p, pt, was, shms)
    modifies p, pt, pt.pmm.bits
    ensures Did(Fault(address), was, old(pt.words), old(pt.pmm.Free()), p, pt, shms, ops)
  {
    ghost var w0, q, low := pt.words, FirstPage(address), was.bounds.stackLow;
    var ok, k := p.TryGrowStack(pt, address, FramesOf(shms, was.used));
    ops := GrowSteps(w0, pt.words, p.root, q, low, was.bounds.stackBase, k);
  }

  /** The step a stack fault at page `q` makes. */
  ghost function GrowOps(q: nat, low: nat, base: nat): Log {
    if STACK_LOW_PAGE <= q < low then [MapOp(q, Proc.StackFrame(base, q), low - q, UserPerm(true, false))] else []
  }

  lemma GrowSteps(w: Words, w2: Words, root: nat, q: nat, low: nat, base: nat, k: nat) returns (ops: Log)
    requires STACK_LOW_PAGE <= q < low ==> Mapped(w, w2, root, q, Proc.StackFrame(base, q), k, UserPerm(true, false)) && k == low - q
    requires !(STACK_LOW_PAGE <= q < low) ==> w2 == w
    ensures ops == GrowOps(q, low, base) && Does(w, w2, root, ops)
  {
    ops := GrowOps(q, low, base);
    if STACK_LOW_PAGE <= q < low {
      DoesMap(w, w2, root, q, Proc.StackFrame(base, q), k, UserPerm(true, false));
    } else {
      DoesNothing(w, w2, root);
    }
  }

  // ---- every operation keeps the machine in order ---------------------------------------------------

  /** No process reaches any of the frames. */
  predicate Unreached(w: Words, procs: map<nat, Saved>, frames: set<nat>) {
    forall pid :: pid in procs ==> NotReached(w, procs[pid].root, procs[pid].maps, frames)
  }

  lemma UnreachedUnused(w: Words, procs: map<nat, Saved>, spaces: map<nat, Space>, frames: set<nat>)
    requires Tabled(procs, spaces) && Unreached(w, procs, frames)
    ensures Unused(w, spaces, frames)
  {
    forall pid | pid in spaces ensures NotReached(w, spaces[pid].mem.root, spaces[pid].mem.maps, frames) {
      assert Same(procs[pid], spaces[pid]);
    }
  }

  /** The kernel's map as an operation on it or on a new process finds it. */
  lemma SaneKernel(s: Sys, all: set<nat>)
    requires Sane(s, all)
    ensures KernelInv(s.words, s.kroot, s.krole) && s.krole.Keys !! s.free
  {
    var own: Owners :| Inv(s, own) && own.Keys == all;
    FreeApart(s, own);
  }

  lemma SaneObjects(s: Sys, all: set<nat>, objs: Shm.Objects)
    requires Sane(s, all) && s.shms == ShmFrames(objs) && ObjectsOk(objs)
    ensures Shm.Sound(objs, s.free)
  {
    var own: Owners :| Inv(s, own) && own.Keys == all;
    ObjectsSound(s, own, objs);
  }

  lemma SpawnSane(s: Sys, all: set<nat>, pid: nat, w2: Words, free2: set<nat>, p: Space)
    requires Sane(s, all) && pid !in s.procs && SameOutside(s.words, w2, s.free) && Started(s.words, s.free, s.kroot, w2, free2, p)
    ensures Sane(AfterSpawn(s, pid, w2, free2, p.mem, p.bounds, p.log), all)
  {
    var own: Owners :| Inv(s, own) && own.Keys == all;
    var own2 := SpawnKeeps(s, own, pid, w2, free2, p.mem, p.bounds, p.log);
  }

  lemma NoSpawnSane(s: Sys, all: set<nat>, w2: Words)
    requires Sane(s, all) && SameOutside(s.words, w2, s.free)
    ensures Sane(s.(words := w2), all)
  {
    var own: Owners :| Inv(s, own) && own.Keys == all;
    FailedSpawnKeeps(s, own, w2);
  }

  lemma ReapSane(s: Sys, all: set<nat>, pid: nat)
    requires Sane(s, all) && pid in s.procs
    ensures Sane(AfterReap(s, pid), all)
  {
    var own: Owners :| Inv(s, own) && own.Keys == all;
    var own2 := ReapKeeps(s, own, pid);
  }

  lemma UseSane(s: Sys, all: set<nat>, pid: nat, id: nat)
    requires Sane(s, all) && pid in s.procs && id in s.shms
    ensures Sane(AfterUse(s, pid, id), all)
  {
    var own: Owners :| Inv(s, own) && own.Keys == all;
    UseKeeps(s, own, pid, id);
  }

  lemma ShmSane(s: Sys, all: set<nat>, id: nat, frames: set<nat>)
    requires Sane(s, all) && frames <= s.free && Unused(s.words, s.procs, Backing(s.shms, id))
    ensures Sane(AfterShm(s, id, frames), all)
  {
    var own: Owners :| Inv(s, own) && own.Keys == all;
    var own2 := ShmKeeps(s, own, id, frames);
  }

  lemma CreateSane(s: Sys, all: set<nat>, id: nat)
    requires Sane(s, all) && id !in s.shms
    ensures Sane(AfterShm(s, id, {}), all)
  {
    ShmSane(s, all, id, {});
  }

  lemma CloseSane(s: Sys, all: set<nat>, id: nat)
    requires Sane(s, all) && id in s.shms && Unused(s.words, s.procs, s.shms[id])
    ensures Sane(AfterClose(s, id), all)
  {
    var own: Owners :| Inv(s, own) && own.Keys == all;
    var own2 := CloseKeeps(s, own, id);
  }

  lemma KernelSane(s: Sys, all: set<nat>, w2: Words, free2: set<nat>, krole2: Roles, added: seq<nat>)
    requires Sane(s, all) && Grown(s.words, w2, s.kroot, s.krole, krole2, s.free, free2, added) && NoUserPage(w2, s.kroot)
    ensures Sane(AfterKernel(s, w2, free2, krole2), all)
  {
    var own: Owners :| Inv(s, own) && own.Keys == all;
    var own2 := KernelKeeps(s, own, w2, free2, krole2, added);
  }

  // ---- what an orderly machine means -----------------------------------------------------------------

  /** The frame behind it is the process's own, or belongs to a shared object it mapped; it
      is never free, never another process's, and never holds the kernel's tables. */
  lemma SaneBacked(s: Sys, all: set<nat>, pid: nat, q: nat)
    requires Sane(s, all) && pid in s.procs && q < ALL_PAGES && UserPage(s.words, s.procs[pid].mem.root, q)
    ensures var x := FrameOf(s.words, s.procs[pid].mem.root, q);
            && (x in s.procs[pid].mem.frames || x in FramesOf(s.shms, s.procs[pid].used)) && x !in s.free && x !in s.krole
            && forall other :: other in s.procs && other != pid ==> x !in s.procs[other].mem.frames
  {
    var own: Owners :| Inv(s, own) && own.Keys == all;
    UserPagesBacked(s, own, pid, q);
    OwnerSays(s, own, pid, FrameOf(s.words, s.procs[pid].mem.root, q));
  }

  lemma OwnerSays(s: Sys, own: Owners, pid: nat, x: nat)
    requires Accounted(s, own) && pid in s.procs && x in own && (own[x] == OfProcess(pid) || own[x].OfShm?)
    ensures own[x] == OfProcess(pid) ==> x in s.procs[pid].mem.frames
    ensures x !in s.free && x !in s.krole && forall other :: other in s.procs && other != pid ==> x !in s.procs[other].mem.frames
  {
    if own[x] == OfProcess(pid) {
      assert x in SetOf(s.procs[pid].mem.frames);
    }
    forall other | other in s.procs && other != pid ensures x !in s.procs[other].mem.frames {
      assert x !in OwnedBy(own, OfProcess(other));
      assert x !in SetOf(s.procs[other].mem.frames);
    }
  }

  // ---- exactly when freeing an object is harmless --------------------------------------------------------

  /** A free frame is behind no user page. */
  lemma FreeUnreached(s: Sys, all: set<nat>, pid: nat, frames: set<nat>)
    requires Sane(s, all) && pid in s.procs && frames <= s.free
    ensures forall q :: 0 <= q < ALL_PAGES && UserPage(s.words, s.procs[pid].mem.root, q) ==> FrameOf(s.words, s.procs[pid].mem.root, q) !in frames
  {
    forall q | 0 <= q < ALL_PAGES && UserPage(s.words, s.procs[pid].mem.root, q)
      ensures FrameOf(s.words, s.procs[pid].mem.root, q) !in frames
    {
      SaneBacked(s, all, pid, q);
    }
  }

  /** Free frames are in no shared record. */
  lemma RecordsLive(s: Sys, all: set<nat>, pid: nat, frames: set<nat>)
    requires Sane(s, all) && pid in s.procs && frames <= s.free
    ensures var maps := s.procs[pid].mem.maps;
            forall a :: 0 <= a < |maps| && maps[a].shm.Some? ==> Range(maps[a].f, maps[a].n) !! frames
  {
    SaneWorkable(s, all, pid);
    var m := s.procs[pid].mem;
    forall a | 0 <= a < |m.maps| && m.maps[a].shm.Some? ensures Range(m.maps[a].f, m.maps[a].n) !! frames {
      assert RecordOk(s.words, m, FramesOf(s.shms, s.procs[pid].used), m.maps[a]);
    }
  }

  lemma FreeUnused(s: Sys, all: set<nat>, frames: set<nat>)
    requires Sane(s, all) && frames <= s.free
    ensures Unused(s.words, s.procs, frames)
  {
    forall pid | pid in s.procs ensures NotReached(s.words, s.procs[pid].mem.root, s.procs[pid].mem.maps, frames) {
      FreeUnreached(s, all, pid, frames);
      RecordsLive(s, all, pid, frames);
    }
  }

  /** The last close of an object keeps the machine in order exactly when no process still
      reaches one of its frames. */
  lemma CloseExact(s: Sys, all: set<nat>, id: nat)
    requires Sane(s, all) && id in s.shms
    ensures Sane(AfterClose(s, id), all) <==> Unused(s.words, s.procs, s.shms[id])
  {
    if Unused(s.words, s.procs, s.shms[id]) {
      CloseSane(s, all, id);
    }
    if Sane(AfterClose(s, id), all) {
      FreeUnused(AfterClose(s, id), all, s.shms[id]);
      forall pid | pid in s.procs ensures NotReached(s.words, s.procs[pid].mem.root, s.procs[pid].mem.maps, s.shms[id]) {
        assert AfterClose(s, id).procs[pid] == Forget(s.procs[pid], id);
      }
    }
  }

  /** So does moving it to other frames. */
  lemma MoveExact(s: Sys, all: set<nat>, id: nat, frames: set<nat>)
    requires Sane(s, all) && id in s.shms && frames <= s.free
    ensures Sane(AfterShm(s, id, frames), all) <==> Unused(s.words, s.procs, s.shms[id])
  {
    if Unused(s.words, s.procs, s.shms[id]) {
      ShmSane(s, all, id, frames);
    }
    if Sane(AfterShm(s, id, frames), all) {
      FreeUnused(AfterShm(s, id, frames), all, s.shms[id]);
    }
  }
}
