/** Every frame of the machine: processes, shared objects, the kernel's own map and the
    frame allocator together, on values. The steps are those `Machine` makes with the
    real operations. */
module System {
  import opened Wrappers
  import opened Pmm
  import opened PageTable
  import opened Paging
  import opened AddressSpace
  import opened ProcessMemory
  import opened Process
  import opened Views

  /** A process's memory and bounds, the shared objects it has mapped, and the map and unmap steps
      made in its page table since it was copied from the kernel's map as it was in `start`. */
  datatype Space = Space(mem: Memory, bounds: Bounds, used: set<nat>, log: Log, start: Words)

  datatype Sys = Sys(words: Words, free: set<nat>, kroot: nat, krole: Roles, procs: map<nat, Space>, shms: map<nat, set<nat>>)

  datatype Owner = Nobody | Kernel | OfProcess(pid: nat) | OfShm(id: nat)
  type Owners = map<nat, Owner>

  /** The frames of the objects `ids`. */
  ghost function FramesOf(shms: map<nat, set<nat>>, ids: set<nat>): set<nat> {
    set id, f | id in ids && id in shms && f in shms[id] :: f
  }

  ghost function OwnedBy(own: Owners, o: Owner): set<nat> { set f | f in own && own[f] == o }

  /** The free set, the processes, the shared objects and the kernel's tables are exactly
      what `own` says. */
  ghost predicate FramesOwned(s: Sys, own: Owners) {
    && s.free == OwnedBy(own, Nobody)
    && s.krole.Keys <= OwnedBy(own, Kernel)
    && (forall pid :: pid in s.procs ==> SetOf(s.procs[pid].mem.frames) == OwnedBy(own, OfProcess(pid)))
    && (forall id :: id in s.shms ==> s.shms[id] == OwnedBy(own, OfShm(id)))
  }

  ghost predicate OwnersExist(s: Sys, own: Owners) {
    && (forall f :: f in own && own[f].OfProcess? ==> own[f].pid in s.procs)
    && (forall f :: f in own && own[f].OfShm? ==> own[f].id in s.shms)
    && (forall f :: f in own && !own[f].Kernel? ==> f < FRAME_COUNT)
  }

  /** `own` gives every frame its one owner. */
  ghost predicate Accounted(s: Sys, own: Owners) { FramesOwned(s, own) && OwnersExist(s, own) }

  /** Every shared record names the object its frames belong to. */
  ghost predicate Indexed(m: Memory, used: set<nat>, shms: map<nat, set<nat>>) {
    forall a :: 0 <= a < |m.maps| && m.maps[a].shm.Some? ==>
      m.maps[a].shm.value in used && m.maps[a].shm.value in shms && Range(m.maps[a].f, m.maps[a].n) <= shms[m.maps[a].shm.value]
  }

  /** The stack region is still recorded, and the bounds are in order. */
  ghost predicate InOrder(m: Memory, b: Bounds) {
    && Proc.StackRange(b.stackBase) in m.maps
    && STACK_LOW_PAGE <= b.stackLow <= STACK_TOP_PAGE && b.heapEnd >= b.heapStart * PAGE_SIZE
  }

  /** The invariant of one process: it owns what it reaches, and its page table shows what
      its log says. */
  ghost predicate SpaceInv(w: Words, shms: map<nat, set<nat>>, kroot: nat, p: Space) {
    && Owns(w, p.mem, FramesOf(shms, p.used)) && Indexed(p.mem, p.used, shms) && p.used <= shms.Keys
    && Explained(w, p.mem.root, p.log, p.start, kroot) && NoUserPage(p.start, kroot) && InOrder(p.mem, p.bounds)
  }

  ghost predicate AllInv(w: Words, shms: map<nat, set<nat>>, kroot: nat, procs: map<nat, Space>) {
    forall pid :: pid in procs ==> SpaceInv(w, shms, kroot, procs[pid])
  }

  /** The kernel's map is a tree that shows ring 3 nothing. */
  ghost predicate KernelInv(w: Words, kroot: nat, krole: Roles) { Tree(w, kroot, krole) && NoUserPage(w, kroot) }

  ghost predicate Inv(s: Sys, own: Owners) {
    Accounted(s, own) && KernelInv(s.words, s.kroot, s.krole) && AllInv(s.words, s.shms, s.kroot, s.procs)
  }

  /** A kernel map whose tables are not free, without processes or shared objects, as
      after boot: every frame is free or the kernel's. */
  lemma BootAccounted(words: Words, free: set<nat>, kroot: nat, krole: Roles) returns (own: Owners)
    requires KernelInv(words, kroot, krole) && krole.Keys !! free && forall f :: f in free ==> f < FRAME_COUNT
    ensures Inv(Sys(words, free, kroot, krole, map[], map[]), own) && own.Keys == free + krole.Keys
  {
    own := map f | f in free + krole.Keys :: if f in free then Nobody else Kernel;
    assert OwnedBy(own, Nobody) == free;
  }

  // ---- what the invariant gives an operation ------------------------------------------------

  lemma SharedOwned(s: Sys, own: Owners, ids: set<nat>, f: nat)
    requires Accounted(s, own) && f in FramesOf(s.shms, ids)
    ensures f in own && own[f].OfShm? && own[f].id in ids && own[f].id in s.shms && f in s.shms[own[f].id]
  {
    var id :| id in ids && id in s.shms && f in s.shms[id];
    assert f in OwnedBy(own, OfShm(id));
  }

  /** The frames of a process, of shared objects, and the free ones are apart. */
  lemma Ready(s: Sys, own: Owners, pid: nat, ids: set<nat>)
    requires Accounted(s, own) && pid in s.procs
    ensures s.free !! SetOf(s.procs[pid].mem.frames) && s.free !! FramesOf(s.shms, ids) && FramesOf(s.shms, ids) !! SetOf(s.procs[pid].mem.frames)
  {
    forall f | f in FramesOf(s.shms, ids) ensures f !in s.free && f !in SetOf(s.procs[pid].mem.frames) {
      SharedOwned(s, own, ids, f);
    }
  }

  // ---- one process's step is invisible to the others -----------------------------------------

  /** A process whose tables lie outside the frames written keeps its invariant and
      every translation. */
  lemma Undisturbed(w: Words, w2: Words, m: Memory, live: set<nat>, written: set<nat>)
    requires Owns(w, m, live) && SameOutside(w, w2, written) && SetOf(m.frames) !! written
    ensures Owns(w2, m, live) && SameWalks(w, w2, m.root)
  {
    UntouchedTree(w, w2, m.root, m.role, written);
    forall a | 0 <= a < |m.maps| ensures RecordOk(w2, m, live, m.maps[a]) {
      var r := m.maps[a];
      assert RecordOk(w, m, live, r);
      forall p | r.v <= p < r.v + r.n ensures IsSplit(w2, m.root, p) {
        Levels(p);
        assert IsSplit(w, m.root, p);
        SamePde(w, w2, m.root, m.role, written, L3(p), L2(p));
      }
    }
    forall q | 0 <= q < ALL_PAGES && UserPage(w2, m.root, q) ensures Backed(m, live, q, FrameOf(w2, m.root, q)) {
      assert UserPage(w, m.root, q) && Backed(m, live, q, FrameOf(w, m.root, q));
    }
  }

  lemma SamePde(w: Words, w2: Words, root: nat, role: Roles, s: set<nat>, i: nat, j: nat)
    requires Tree(w, root, role) && SameOutside(w, w2, s) && role.Keys !! s && i < 4
    ensures Pde(w2, root, i, j) == Pde(w, root, i, j)
  {
    assert Pdpt(w, root) in role && Pd(w, root, i) in role;
  }

  lemma StaysExplained(w: Words, w2: Words, root: nat, log: Log, w0: Words, kroot: nat)
    requires Explained(w, root, log, w0, kroot) && SameWalks(w, w2, root)
    ensures Explained(w2, root, log, w0, kroot)
  {
  }

  /** A process after frames outside it were written. */
  lemma OtherStays(w: Words, w2: Words, shms: map<nat, set<nat>>, kroot: nat, p: Space, written: set<nat>)
    requires SpaceInv(w, shms, kroot, p) && SameOutside(w, w2, written) && SetOf(p.mem.frames) !! written
    ensures SpaceInv(w2, shms, kroot, p) && SameWalks(w, w2, p.mem.root)
  {
    Undisturbed(w, w2, p.mem, FramesOf(shms, p.used), written);
    StaysExplained(w, w2, p.mem.root, p.log, p.start, kroot);
  }

  ghost predicate NoneOwns(procs: map<nat, Space>, written: set<nat>) {
    forall pid :: pid in procs ==> SetOf(procs[pid].mem.frames) !! written
  }

  ghost predicate AllSame(w: Words, w2: Words, procs: map<nat, Space>) {
    forall pid :: pid in procs ==> SameWalks(w, w2, procs[pid].mem.root)
  }

  lemma AllStay(w: Words, w2: Words, shms: map<nat, set<nat>>, kroot: nat, procs: map<nat, Space>, written: set<nat>)
    requires AllInv(w, shms, kroot, procs) && SameOutside(w, w2, written) && NoneOwns(procs, written)
    ensures AllInv(w2, shms, kroot, procs) && AllSame(w, w2, procs)
  {
    forall pid | pid in procs ensures SpaceInv(w2, shms, kroot, procs[pid]) && SameWalks(w, w2, procs[pid].mem.root) {
      OtherStays(w, w2, shms, kroot, procs[pid], written);
    }
  }

  lemma StillNoUser(w: Words, w2: Words, root: nat)
    requires NoUserPage(w, root) && SameWalks(w, w2, root)
    ensures NoUserPage(w2, root)
  {
  }

  /** The kernel's map after frames outside its tables were written. */
  lemma KernelStays(w: Words, w2: Words, kroot: nat, krole: Roles, written: set<nat>)
    requires KernelInv(w, kroot, krole) && SameOutside(w, w2, written) && krole.Keys !! written
    ensures KernelInv(w2, kroot, krole) && SameWalks(w, w2, kroot)
  {
    UntouchedTree(w, w2, kroot, krole, written);
    StillNoUser(w, w2, kroot);
  }

  // ---- conservation ---------------------------------------------------------------------------

  /** Frames `taken` go to `o`; whatever else `o` had becomes free. */
  ghost function Reassign(own: Owners, o: Owner, taken: set<nat>): Owners {
    map f | f in own :: if f in taken then o else if own[f] == o then Nobody else own[f]
  }

  lemma Reassigned(own: Owners, o: Owner, taken: set<nat>)
    requires taken <= OwnedBy(own, Nobody) + OwnedBy(own, o) && o != Nobody
    ensures var own2 := Reassign(own, o, taken);
            && own2.Keys == own.Keys
            && OwnedBy(own2, o) == taken
            && OwnedBy(own2, Nobody) == OwnedBy(own, Nobody) - taken + (OwnedBy(own, o) - taken)
            && (forall p :: p != o && p != Nobody ==> OwnedBy(own2, p) == OwnedBy(own, p))
            && (forall f :: f in own2 ==> own2[f] == o || own2[f] == Nobody || own2[f] == own[f])
  {
    forall p | p != o && p != Nobody ensures OwnedBy(Reassign(own, o, taken), p) == OwnedBy(own, p) {
    }
  }

  /** Who owns a frame afterwards still exists. */
  lemma OwnersAfter(s: Sys, t: Sys, own: Owners, o: Owner, taken: set<nat>)
    requires OwnersExist(s, own) && taken <= OwnedBy(own, Nobody) + OwnedBy(own, o) && (o.OfProcess? || o.OfShm?)
    requires s.procs.Keys <= t.procs.Keys && s.shms.Keys <= t.shms.Keys
    requires if o.OfProcess? then o.pid in t.procs else o.id in t.shms
    ensures OwnersExist(t, Reassign(own, o, taken))
  {
    var own2 := Reassign(own, o, taken);
    forall f | f in own2 && own2[f] == o ensures f < FRAME_COUNT {
      assert f in taken;
    }
  }

  /** The same when all frames of one owner became free, and only it is gone. */
  lemma OwnersFreed(s: Sys, t: Sys, own: Owners, o: Owner)
    requires OwnersExist(s, own) && (o.OfProcess? || o.OfShm?)
    requires forall pid :: pid in s.procs && OfProcess(pid) != o ==> pid in t.procs
    requires forall id :: id in s.shms && OfShm(id) != o ==> id in t.shms
    ensures OwnersExist(t, Reassign(own, o, {}))
  {
  }

  // ---- a memory operation of a process ----------------------------------------------------------

  /** The state after an operation of `pid` that left it with memory `m2` and made the
      steps `ops` in its page table. */
  ghost function AfterProc(s: Sys, pid: nat, w2: Words, free2: set<nat>, m2: Memory, b2: Bounds, ops: Log): Sys
    requires pid in s.procs
  {
    var p := s.procs[pid];
    s.(words := w2, free := free2, procs := s.procs[pid := p.(mem := m2, bounds := b2, log := p.log + ops)])
  }

  /** The table frames a process writes were its own or free. */
  lemma WritesOwn(s: Sys, own: Owners, pid: nat, w2: Words, free2: set<nat>, m2: Memory)
    requires Accounted(s, own) && pid in s.procs && Local(s.words, s.free, s.procs[pid].mem, w2, free2, m2)
    ensures m2.role.Keys <= SetOf(m2.frames) <= OwnedBy(own, Nobody) + OwnedBy(own, OfProcess(pid))
    ensures m2.role.Keys !! s.krole.Keys && NoneOwns(s.procs - {pid}, m2.role.Keys)
  {
    var m := s.procs[pid].mem;
    forall f | f in SetOf(m2.frames) ensures f in OwnedBy(own, Nobody) + OwnedBy(own, OfProcess(pid)) {
      assert f !in SetOf(m.frames) ==> f in SetOf(m2.frames) - SetOf(m.frames);
    }
    forall f | f in m2.role ensures f !in s.krole {
      assert f in SetOf(m2.frames);
    }
    forall other | other in s.procs - {pid} ensures SetOf(s.procs[other].mem.frames) !! m2.role.Keys {
      assert SetOf(s.procs[other].mem.frames) == OwnedBy(own, OfProcess(other));
    }
  }

  /** Isolation: an operation of one process changes no translation of the kernel or of
      any other process. */
  lemma Isolation(s: Sys, own: Owners, pid: nat, w2: Words, free2: set<nat>, m2: Memory)
    requires Inv(s, own) && pid in s.procs && Local(s.words, s.free, s.procs[pid].mem, w2, free2, m2)
    ensures SameWalks(s.words, w2, s.kroot) && KernelInv(w2, s.kroot, s.krole)
    ensures AllSame(s.words, w2, s.procs - {pid}) && AllInv(w2, s.shms, s.kroot, s.procs - {pid})
  {
    WritesOwn(s, own, pid, w2, free2, m2);
    KernelStays(s.words, w2, s.kroot, s.krole, m2.role.Keys);
    Fewer(s.words, s.shms, s.kroot, s.procs, pid);
    AllStay(s.words, w2, s.shms, s.kroot, s.procs - {pid}, m2.role.Keys);
  }

  lemma Fewer(w: Words, shms: map<nat, set<nat>>, kroot: nat, procs: map<nat, Space>, pid: nat)
    requires AllInv(w, shms, kroot, procs)
    ensures AllInv(w, shms, kroot, procs - {pid})
  {
  }

  lemma Put(w: Words, shms: map<nat, set<nat>>, kroot: nat, procs: map<nat, Space>, pid: nat, p: Space)
    requires AllInv(w, shms, kroot, procs - {pid}) && SpaceInv(w, shms, kroot, p)
    ensures AllInv(w, shms, kroot, procs[pid := p])
  {
    var after := procs[pid := p];
    forall other | other in after ensures SpaceInv(w, shms, kroot, after[other]) {
      assert other != pid ==> other in procs - {pid} && (procs - {pid})[other] == after[other];
    }
  }

  lemma ProcAccounted(s: Sys, own: Owners, pid: nat, w2: Words, free2: set<nat>, m2: Memory, b2: Bounds, ops: Log) returns (own2: Owners)
    requires Accounted(s, own) && pid in s.procs && Local(s.words, s.free, s.procs[pid].mem, w2, free2, m2)
    ensures Accounted(AfterProc(s, pid, w2, free2, m2, b2, ops), own2) && own2.Keys == own.Keys
  {
    own2 := Reassign(own, OfProcess(pid), SetOf(m2.frames));
    ProcOwned(s, own, pid, w2, free2, m2, b2, ops);
    WritesOwn(s, own, pid, w2, free2, m2);
    OwnersAfter(s, AfterProc(s, pid, w2, free2, m2, b2, ops), own, OfProcess(pid), SetOf(m2.frames));
  }

  lemma ProcOwned(s: Sys, own: Owners, pid: nat, w2: Words, free2: set<nat>, m2: Memory, b2: Bounds, ops: Log)
    requires Accounted(s, own) && pid in s.procs && Local(s.words, s.free, s.procs[pid].mem, w2, free2, m2)
    ensures FramesOwned(AfterProc(s, pid, w2, free2, m2, b2, ops), Reassign(own, OfProcess(pid), SetOf(m2.frames)))
  {
    WritesOwn(s, own, pid, w2, free2, m2);
    Reassigned(own, OfProcess(pid), SetOf(m2.frames));
  }

  /** The acting process. */
  lemma Acted(w: Words, w2: Words, shms: map<nat, set<nat>>, kroot: nat, p: Space, m2: Memory, b2: Bounds, ops: Log)
    requires SpaceInv(w, shms, kroot, p) && m2.root == p.mem.root && Does(w, w2, p.mem.root, ops)
    requires Owns(w2, m2, FramesOf(shms, p.used)) && Indexed(m2, p.used, shms) && InOrder(m2, b2)
    ensures SpaceInv(w2, shms, kroot, p.(mem := m2, bounds := b2, log := p.log + ops))
  {
    ExplainedNext(w, w2, p.mem.root, p.log, ops, p.start, kroot);
  }

  lemma ProcKeeps(s: Sys, own: Owners, pid: nat, w2: Words, free2: set<nat>, m2: Memory, b2: Bounds, ops: Log) returns (own2: Owners)
    requires Inv(s, own) && pid in s.procs && Local(s.words, s.free, s.procs[pid].mem, w2, free2, m2)
    requires Owns(w2, m2, FramesOf(s.shms, s.procs[pid].used)) && Indexed(m2, s.procs[pid].used, s.shms)
    requires Does(s.words, w2, s.procs[pid].mem.root, ops) && InOrder(m2, b2)
    ensures Inv(AfterProc(s, pid, w2, free2, m2, b2, ops), own2) && own2.Keys == own.Keys
  {
    own2 := ProcAccounted(s, own, pid, w2, free2, m2, b2, ops);
    Isolation(s, own, pid, w2, free2, m2);
    var p := s.procs[pid];
    Acted(s.words, w2, s.shms, s.kroot, p, m2, b2, ops);
    Put(w2, s.shms, s.kroot, s.procs, pid, p.(mem := m2, bounds := b2, log := p.log + ops));
  }

  /** A process about to map a further object. */
  ghost function AfterUse(s: Sys, pid: nat, id: nat): Sys
    requires pid in s.procs
  {
    s.(procs := s.procs[pid := s.procs[pid].(used := s.procs[pid].used + {id})])
  }

  lemma UseKeeps(s: Sys, own: Owners, pid: nat, id: nat)
    requires Inv(s, own) && pid in s.procs && id in s.shms
    ensures Inv(AfterUse(s, pid, id), own)
    ensures s.shms[id] <= FramesOf(s.shms, s.procs[pid].used + {id})
  {
    var p := s.procs[pid];
    MoreUsed(s.words, s.shms, s.kroot, p, id);
    Fewer(s.words, s.shms, s.kroot, s.procs, pid);
    Put(s.words, s.shms, s.kroot, s.procs, pid, p.(used := p.used + {id}));
    UseAccounted(s, own, pid, id);
  }

  lemma UseAccounted(s: Sys, own: Owners, pid: nat, id: nat)
    requires Accounted(s, own) && pid in s.procs
    ensures Accounted(AfterUse(s, pid, id), own)
  {
  }

  lemma MoreUsed(w: Words, shms: map<nat, set<nat>>, kroot: nat, p: Space, id: nat)
    requires SpaceInv(w, shms, kroot, p) && id in shms
    ensures SpaceInv(w, shms, kroot, p.(used := p.used + {id}))
  {
    var live, live2 := FramesOf(shms, p.used), FramesOf(shms, p.used + {id});
    assert live <= live2;
    LiveChanged(w, p.mem, live, live2, {});
  }

  // ---- spawn and reap --------------------------------------------------------------------------------

  ghost function AfterSpawn(s: Sys, pid: nat, w2: Words, free2: set<nat>, m: Memory, b: Bounds, log: Log): Sys {
    s.(words := w2, free := free2, procs := s.procs[pid := Space(m, b, {}, log, s.words)])
  }

  lemma SpawnAccounted(s: Sys, own: Owners, pid: nat, w2: Words, free2: set<nat>, m: Memory, b: Bounds, log: Log) returns (own2: Owners)
    requires Accounted(s, own) && pid !in s.procs && SetOf(m.frames) <= s.free && free2 == s.free - SetOf(m.frames)
    ensures Accounted(AfterSpawn(s, pid, w2, free2, m, b, log), own2) && own2.Keys == own.Keys
  {
    var o, taken := OfProcess(pid), SetOf(m.frames);
    own2 := Reassign(own, o, taken);
    SpawnOwned(s, own, pid, w2, free2, m, b, log);
    OwnersAfter(s, AfterSpawn(s, pid, w2, free2, m, b, log), own, o, taken);
  }

  lemma SpawnOwned(s: Sys, own: Owners, pid: nat, w2: Words, free2: set<nat>, m: Memory, b: Bounds, log: Log)
    requires Accounted(s, own) && pid !in s.procs && SetOf(m.frames) <= s.free && free2 == s.free - SetOf(m.frames)
    ensures FramesOwned(AfterSpawn(s, pid, w2, free2, m, b, log), Reassign(own, OfProcess(pid), SetOf(m.frames)))
  {
    var o, taken := OfProcess(pid), SetOf(m.frames);
    assert OwnedBy(own, o) == {};
    Reassigned(own, o, taken);
  }

  /** Writing only to free frames disturbs nobody. */
  lemma FreeWrites(s: Sys, own: Owners, w2: Words)
    requires Inv(s, own) && SameOutside(s.words, w2, s.free)
    ensures KernelInv(w2, s.kroot, s.krole) && SameWalks(s.words, w2, s.kroot)
    ensures AllInv(w2, s.shms, s.kroot, s.procs) && AllSame(s.words, w2, s.procs)
  {
    FreeApart(s, own);
    KernelStays(s.words, w2, s.kroot, s.krole, s.free);
    AllStay(s.words, w2, s.shms, s.kroot, s.procs, s.free);
  }

  lemma FreeApart(s: Sys, own: Owners)
    requires Accounted(s, own)
    ensures s.krole.Keys !! s.free && NoneOwns(s.procs, s.free)
  {
  }

  lemma SpawnKeeps(s: Sys, own: Owners, pid: nat, w2: Words, free2: set<nat>, m: Memory, b: Bounds, log: Log) returns (own2: Owners)
    requires Inv(s, own) && pid !in s.procs && SetOf(m.frames) <= s.free && free2 == s.free - SetOf(m.frames)
    requires SameOutside(s.words, w2, s.free) && Owns(w2, m, {}) && (forall a :: 0 <= a < |m.maps| ==> m.maps[a].shm.None?)
    requires Explained(w2, m.root, log, s.words, s.kroot) && InOrder(m, b)
    ensures Inv(AfterSpawn(s, pid, w2, free2, m, b, log), own2) && own2.Keys == own.Keys
  {
    own2 := SpawnAccounted(s, own, pid, w2, free2, m, b, log);
    FreeWrites(s, own, w2);
    NewSpace(s.words, w2, s.shms, s.kroot, m, b, log);
    Fewer(w2, s.shms, s.kroot, s.procs, pid);
    Put(w2, s.shms, s.kroot, s.procs, pid, Space(m, b, {}, log, s.words));
  }

  lemma NewSpace(w: Words, w2: Words, shms: map<nat, set<nat>>, kroot: nat, m: Memory, b: Bounds, log: Log)
    requires Owns(w2, m, {}) && (forall a :: 0 <= a < |m.maps| ==> m.maps[a].shm.None?) && InOrder(m, b)
    requires Explained(w2, m.root, log, w, kroot) && NoUserPage(w, kroot)
    ensures SpaceInv(w2, shms, kroot, Space(m, b, {}, log, w))
  {
    assert FramesOf(shms, {}) == {};
  }

  lemma FailedSpawnKeeps(s: Sys, own: Owners, w2: Words)
    requires Inv(s, own) && SameOutside(s.words, w2, s.free)
    ensures Inv(s.(words := w2), own)
  {
    FreeWrites(s, own, w2);
  }

  ghost function AfterReap(s: Sys, pid: nat): Sys
    requires pid in s.procs
  {
    s.(free := s.free + SetOf(s.procs[pid].mem.frames), procs := s.procs - {pid})
  }

  /** Reaping turns exactly the frames of the process free. */
  lemma ReapAccounted(s: Sys, own: Owners, pid: nat) returns (own2: Owners)
    requires Accounted(s, own) && pid in s.procs
    ensures Accounted(AfterReap(s, pid), own2) && own2.Keys == own.Keys
  {
    own2 := Reassign(own, OfProcess(pid), {});
    ReapOwned(s, own, pid);
    OwnersFreed(s, AfterReap(s, pid), own, OfProcess(pid));
  }

  lemma ReapOwned(s: Sys, own: Owners, pid: nat)
    requires Accounted(s, own) && pid in s.procs
    ensures FramesOwned(AfterReap(s, pid), Reassign(own, OfProcess(pid), {}))
  {
    var t, o := AfterReap(s, pid), OfProcess(pid);
    var own2 := Reassign(own, o, {});
    Reassigned(own, o, {});
    assert OwnedBy(own2, Nobody) == s.free + SetOf(s.procs[pid].mem.frames);
    forall p | p in t.procs ensures SetOf(t.procs[p].mem.frames) == OwnedBy(own2, OfProcess(p)) {
      assert p in s.procs && OfProcess(p) != o;
    }
  }

  lemma ReapKeeps(s: Sys, own: Owners, pid: nat) returns (own2: Owners)
    requires Inv(s, own) && pid in s.procs
    ensures Inv(AfterReap(s, pid), own2) && own2.Keys == own.Keys
  {
    own2 := ReapAccounted(s, own, pid);
    Fewer(s.words, s.shms, s.kroot, s.procs, pid);
  }

  // ---- shared objects ------------------------------------------------------------------------------------

  /** No page or record of the process reaches any of the frames. */
  predicate NotReached(w: Words, root: nat, maps: seq<Mapping>, frames: set<nat>) {
    && (forall q :: 0 <= q < ALL_PAGES && UserPage(w, root, q) ==> FrameOf(w, root, q) !in frames)
    && (forall a :: 0 <= a < |maps| && maps[a].shm.Some? ==> Range(maps[a].f, maps[a].n) !! frames)
  }

  ghost predicate Unused(w: Words, procs: map<nat, Space>, frames: set<nat>) {
    forall pid :: pid in procs ==> NotReached(w, procs[pid].mem.root, procs[pid].mem.maps, frames)
  }

  /** Any other set of live frames that still has everything the process uses. */
  lemma LiveChanged(w: Words, m: Memory, live: set<nat>, live2: set<nat>, gone: set<nat>)
    requires Owns(w, m, live) && NotReached(w, m.root, m.maps, gone) && live - gone <= live2
    ensures Owns(w, m, live2)
  {
    forall a | 0 <= a < |m.maps| ensures RecordOk(w, m, live2, m.maps[a]) {
      assert RecordOk(w, m, live, m.maps[a]);
    }
    forall q | 0 <= q < ALL_PAGES && UserPage(w, m.root, q) ensures Backed(m, live2, q, FrameOf(w, m.root, q)) {
      assert Backed(m, live, q, FrameOf(w, m.root, q));
    }
  }

  /** A record of an object whose frames are not reached cannot exist. */
  lemma NoRecord(w: Words, m: Memory, live: set<nat>, used: set<nat>, shms: map<nat, set<nat>>, id: nat)
    requires Owns(w, m, live) && Indexed(m, used, shms) && id in shms && NotReached(w, m.root, m.maps, shms[id])
    ensures forall a :: 0 <= a < |m.maps| ==> m.maps[a].shm != Some(id)
  {
    forall a | 0 <= a < |m.maps| ensures m.maps[a].shm != Some(id) {
      var r := m.maps[a];
      assert RecordOk(w, m, live, r) && InRun(r.f, r.f, r.n) && r.f in Range(r.f, r.n);
    }
  }

  function Backing(shms: map<nat, set<nat>>, id: nat): set<nat> { if id in shms then shms[id] else {} }

  /** The object's frames become `frames`, taken from the free ones; those it had, which
      nobody reaches, are freed. */
  ghost function AfterShm(s: Sys, id: nat, frames: set<nat>): Sys {
    s.(free := s.free - frames + Backing(s.shms, id), shms := s.shms[id := frames])
  }

  lemma ShmAccounted(s: Sys, own: Owners, id: nat, frames: set<nat>) returns (own2: Owners)
    requires Accounted(s, own) && frames <= s.free
    ensures Accounted(AfterShm(s, id, frames), own2) && own2.Keys == own.Keys
  {
    own2 := Reassign(own, OfShm(id), frames);
    ShmOwned(s, own, id, frames);
    OwnersAfter(s, AfterShm(s, id, frames), own, OfShm(id), frames);
  }

  lemma ShmOwned(s: Sys, own: Owners, id: nat, frames: set<nat>)
    requires Accounted(s, own) && frames <= s.free
    ensures FramesOwned(AfterShm(s, id, frames), Reassign(own, OfShm(id), frames))
  {
    Reassigned(own, OfShm(id), frames);
    assert id !in s.shms ==> OwnedBy(own, OfShm(id)) == {};
  }

  lemma ShmKeeps(s: Sys, own: Owners, id: nat, frames: set<nat>) returns (own2: Owners)
    requires Inv(s, own) && frames <= s.free && Unused(s.words, s.procs, Backing(s.shms, id))
    ensures Inv(AfterShm(s, id, frames), own2) && own2.Keys == own.Keys
  {
    own2 := ShmAccounted(s, own, id, frames);
    var shms2 := s.shms[id := frames];
    forall pid | pid in s.procs ensures SpaceInv(s.words, shms2, s.kroot, s.procs[pid]) {
      ShmProc(s.words, s.shms, s.kroot, s.procs[pid], id, frames);
    }
  }

  lemma ShmProc(w: Words, shms: map<nat, set<nat>>, kroot: nat, p: Space, id: nat, frames: set<nat>)
    requires SpaceInv(w, shms, kroot, p) && NotReached(w, p.mem.root, p.mem.maps, Backing(shms, id))
    ensures SpaceInv(w, shms[id := frames], kroot, p)
  {
    var shms2, was := shms[id := frames], Backing(shms, id);
    var live, live2 := FramesOf(shms, p.used), FramesOf(shms2, p.used);
    forall f | f in live - was ensures f in live2 {
      var i :| i in p.used && i in shms && f in shms[i];
      assert i != id && i in shms2 && f in shms2[i];
    }
    LiveChanged(w, p.mem, live, live2, was);
    if id in shms {
      NoRecord(w, p.mem, live, p.used, shms, id);
    }
  }

  ghost function Forget(p: Space, id: nat): Space { p.(used := p.used - {id}) }

  ghost function ForgetAll(procs: map<nat, Space>, id: nat): map<nat, Space> { map pid | pid in procs :: Forget(procs[pid], id) }

  /** The object is gone, its frames free, and nobody counts it among those it mapped. */
  ghost function AfterClose(s: Sys, id: nat): Sys {
    s.(free := s.free + Backing(s.shms, id), shms := s.shms - {id}, procs := ForgetAll(s.procs, id))
  }

  lemma CloseAccounted(s: Sys, own: Owners, id: nat) returns (own2: Owners)
    requires Accounted(s, own) && id in s.shms
    ensures Accounted(AfterClose(s, id), own2) && own2.Keys == own.Keys
  {
    var t := s.(free := s.free + s.shms[id], shms := s.shms - {id});
    own2 := Reassign(own, OfShm(id), {});
    FreedAccounted(s, own, id, t);
    ForgetAccounted(t, own2, id);
  }

  lemma FreedAccounted(s: Sys, own: Owners, id: nat, t: Sys)
    requires Accounted(s, own) && id in s.shms && t == s.(free := s.free + s.shms[id], shms := s.shms - {id})
    ensures Accounted(t, Reassign(own, OfShm(id), {}))
  {
    FreedOwned(s, own, id, t);
    OwnersFreed(s, t, own, OfShm(id));
  }

  lemma FreedOwned(s: Sys, own: Owners, id: nat, t: Sys)
    requires Accounted(s, own) && id in s.shms && t == s.(free := s.free + s.shms[id], shms := s.shms - {id})
    ensures FramesOwned(t, Reassign(own, OfShm(id), {}))
  {
    var own2, o := Reassign(own, OfShm(id), {}), OfShm(id);
    Reassigned(own, o, {});
    assert OwnedBy(own2, Nobody) == s.free + s.shms[id];
    forall i | i in t.shms ensures t.shms[i] == OwnedBy(own2, OfShm(i)) {
      assert i in s.shms && OfShm(i) != o;
    }
  }

  lemma ForgetAccounted(s: Sys, own: Owners, id: nat)
    requires Accounted(s, own)
    ensures Accounted(s.(procs := ForgetAll(s.procs, id)), own)
  {
  }

  lemma CloseKeeps(s: Sys, own: Owners, id: nat) returns (own2: Owners)
    requires Inv(s, own) && id in s.shms && Unused(s.words, s.procs, s.shms[id])
    ensures Inv(AfterClose(s, id), own2) && own2.Keys == own.Keys
  {
    own2 := CloseAccounted(s, own, id);
    forall pid | pid in s.procs ensures SpaceInv(s.words, s.shms - {id}, s.kroot, Forget(s.procs[pid], id)) {
      CloseProc(s.words, s.shms, s.kroot, s.procs[pid], id);
    }
  }

  lemma CloseProc(w: Words, shms: map<nat, set<nat>>, kroot: nat, p: Space, id: nat)
    requires SpaceInv(w, shms, kroot, p) && id in shms && NotReached(w, p.mem.root, p.mem.maps, shms[id])
    ensures SpaceInv(w, shms - {id}, kroot, Forget(p, id))
  {
    var shms2, used2 := shms - {id}, p.used - {id};
    var live, live2 := FramesOf(shms, p.used), FramesOf(shms2, used2);
    forall f | f in live - shms[id] ensures f in live2 {
      var i :| i in p.used && i in shms && f in shms[i];
      assert i != id && i in shms2 && i in used2 && f in shms2[i];
    }
    LiveChanged(w, p.mem, live, live2, shms[id]);
    NoRecord(w, p.mem, live, p.used, shms, id);
  }

  // ---- the kernel's own map ----------------------------------------------------------------------------------

  ghost function AfterKernel(s: Sys, w2: Words, free2: set<nat>, krole2: Roles): Sys { s.(words := w2, free := free2, krole := krole2) }

  lemma KernelApart(s: Sys, own: Owners, written: set<nat>)
    requires Accounted(s, own) && written <= OwnedBy(own, Nobody) + OwnedBy(own, Kernel)
    ensures NoneOwns(s.procs, written)
  {
    forall pid | pid in s.procs ensures SetOf(s.procs[pid].mem.frames) !! written {
      assert SetOf(s.procs[pid].mem.frames) == OwnedBy(own, OfProcess(pid));
    }
  }

  lemma KernelAccounted(s: Sys, own: Owners, w2: Words, free2: set<nat>, krole2: Roles, added: seq<nat>) returns (own2: Owners)
    requires Accounted(s, own) && SetOf(added) <= s.free && free2 == s.free - SetOf(added) && krole2.Keys == s.krole.Keys + SetOf(added)
    ensures Accounted(AfterKernel(s, w2, free2, krole2), own2) && own2.Keys == own.Keys
  {
    var taken := SetOf(added) + OwnedBy(own, Kernel);
    own2 := Reassign(own, Kernel, taken);
    Reassigned(own, Kernel, taken);
  }

  /** A change of the kernel's own map that shows ring 3 nothing. */
  lemma KernelKeeps(s: Sys, own: Owners, w2: Words, free2: set<nat>, krole2: Roles, added: seq<nat>) returns (own2: Owners)
    requires Inv(s, own) && Grown(s.words, w2, s.kroot, s.krole, krole2, s.free, free2, added) && NoUserPage(w2, s.kroot)
    ensures Inv(AfterKernel(s, w2, free2, krole2), own2) && own2.Keys == own.Keys
    ensures AllSame(s.words, w2, s.procs)
  {
    own2 := KernelAccounted(s, own, w2, free2, krole2, added);
    KernelApart(s, own, krole2.Keys);
    AllStay(s.words, w2, s.shms, s.kroot, s.procs, krole2.Keys);
  }

  // ---- what the invariant means --------------------------------------------------------------------------------

  /** A page a process reaches from ring 3 is backed by a frame it owns itself, or by a
      frame of a shared object that it mapped. */
  lemma UserPagesBacked(s: Sys, own: Owners, pid: nat, q: nat)
    requires Inv(s, own) && pid in s.procs && q < ALL_PAGES && UserPage(s.words, s.procs[pid].mem.root, q)
    ensures var x := FrameOf(s.words, s.procs[pid].mem.root, q);
            x in own && (own[x] == OfProcess(pid) || (own[x].OfShm? && own[x].id in s.procs[pid].used && own[x].id in s.shms && x in s.shms[own[x].id]))
  {
    var p := s.procs[pid];
    assert SpaceInv(s.words, s.shms, s.kroot, p);
    var x := FrameOf(s.words, p.mem.root, q);
    assert Backed(p.mem, FramesOf(s.shms, p.used), q, x);
    if x in FramesOf(s.shms, p.used) {
      SharedOwned(s, own, p.used, x);
    } else {
      assert x in SetOf(p.mem.frames);
    }
  }

  /** So no two processes reach a common frame unless it is shared memory that both
      mapped, and no process reaches a page table or a free frame. */
  lemma NoSharedPrivateFrame(s: Sys, own: Owners, pid: nat, q: nat, other: nat, r: nat)
    requires Inv(s, own) && pid in s.procs && other in s.procs && pid != other && q < ALL_PAGES && r < ALL_PAGES
    requires UserPage(s.words, s.procs[pid].mem.root, q) && UserPage(s.words, s.procs[other].mem.root, r)
    requires FrameOf(s.words, s.procs[pid].mem.root, q) == FrameOf(s.words, s.procs[other].mem.root, r)
    ensures exists id :: id in s.procs[pid].used && id in s.procs[other].used && id in s.shms && FrameOf(s.words, s.procs[pid].mem.root, q) in s.shms[id]
  {
    UserPagesBacked(s, own, pid, q);
    UserPagesBacked(s, own, other, r);
  }

  /** Ring 3 reaches a page exactly when the process mapped it for ring 3 and has not
      unmapped it since; and the page shows exactly what the last step said. */
  lemma ReachExact(s: Sys, own: Owners, pid: nat, q: nat)
    requires Inv(s, own) && pid in s.procs && q < ALL_PAGES
    ensures UserPage(s.words, s.procs[pid].mem.root, q) <==> MappedSince(s.procs[pid].log, q)
    ensures Walk(s.words, s.procs[pid].mem.root, q) == LastSays(s.procs[pid].log, q, Walk(s.procs[pid].start, s.kroot, q))
  {
    var p := s.procs[pid];
    assert SpaceInv(s.words, s.shms, s.kroot, p);
    SaysMapped(p.log, q, Walk(p.start, s.kroot, q));
  }
}
