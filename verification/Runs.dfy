/** Runs of the machine: any operations of the kernel in any order (src/process.rs, src/shm.rs,
    src/paging.rs), and the state after each. */
module Runs {
  import opened Wrappers
  import opened Pmm
  import opened PageTable
  import opened Paging
  import opened AddressSpace
  import opened ProcessMemory
  import opened Process
  import opened Spawn
  import opened Views
  import opened System
  import opened Machine
  import Shm

  datatype Op =
    | OpSpawn(v: nat, perms: seq<Perm>, low: nat, native: bool, heapStart: nat)
    | OpReap(pid: nat)
    | OpAct(pid: nat, act: ProcOp)
    | OpShmCreate
    | OpShmDup(id: nat)
    | OpShmClose(id: nat)
    | OpShmTruncate(id: nat, size: nat)
    | OpKernelMap(virt: nat, phys: nat, perm: Perm)
    | OpKernelUnmap(virt: nat)

  /** What keeps the machine in order: the stack's region stays recorded, no object that is
      still mapped is finally closed or moved to other frames, and the kernel's map shows
      ring 3 nothing. */
  predicate Harmless(op: Op, w: Words, procs: map<nat, Saved>, objs: Shm.Objects) {
    match op
    case OpSpawn(_, perms, low, _, _) => ImageOk(perms, low)
    case OpAct(pid, Munmap(addr, len)) =>
      pid in procs ==> !Inside(Proc.StackRange(procs[pid].bounds.stackBase), FirstPage(addr), EndPage(addr, len))
    case OpShmClose(id) => Shm.RefCount(objs, id) == 1 ==> Unreached(w, procs, Shm.Backing(objs, id))
    case OpShmTruncate(id, size) => Shm.Live(objs, id) && !Shm.Stays(objs[id].value, size) ==> Unreached(w, procs, Shm.Backing(objs, id))
    case OpKernelMap(_, _, perm) => !perm.user
    case _ => true
  }

  // ---- what each operation does ----------------------------------------------------------------------

  /** The machine between two operations. */
  datatype Shot = Shot(sys: Sys, objs: Shm.Objects)

  /** What an operation came to: a process it made or worked on, with the steps made in its page
      table and whether it was placed clear of what is recorded; a process gone; an object gone. */
  datatype Event =
    | Spawned(pid: nat, steps: Log, clear: bool)
    | Worked(pid: nat, act: ProcOp, steps: Log, clear: bool)
    | Reaped(pid: nat)
    | Closed(id: nat)
    | Quiet

  /** A shared mapping takes the frames its object has. */
  function Resolved(act: ProcOp, objs: Shm.Objects): ProcOp {
    if act.MmapShared? && Shm.Live(objs, act.id) then act.(f := objs[act.id].value.phys, n := objs[act.id].value.pages) else act
  }

  /** The process counts the object as one it has mapped. */
  ghost function Using(s: Sys, pid: nat, act: ProcOp): Sys
    requires pid in s.procs
  {
    if act.MmapShared? then AfterUse(s, pid, act.id) else s
  }

  ghost predicate WasClear(s: Sys, pid: nat, act: ProcOp)
    requires pid in s.procs
  {
    InOrder(s.procs[pid].mem, s.procs[pid].bounds) && PlacedClear(act, s.procs[pid])
  }

  ghost predicate ActStep(a: Shot, pid: nat, act: ProcOp, e: Event, s2: Sys) {
    if pid !in a.sys.procs || (act.MmapShared? && !Shm.Live(a.objs, act.id)) then e == Quiet && s2 == a.sys
    else WorkStep(a.sys, pid, Resolved(act, a.objs), e, s2)
  }

  ghost predicate WorkStep(s: Sys, pid: nat, act: ProcOp, e: Event, s2: Sys)
    requires pid in s.procs
  {
    exists steps: Log, clear: bool ::
      e == Worked(pid, act, steps, clear) && Acts(Using(s, pid, act), pid, act, steps, s2) && clear == WasClear(s, pid, act)
  }

  ghost predicate SpawnStep(s: Sys, op: Op, e: Event, s2: Sys)
    requires op.OpSpawn?
  {
    && SameOutside(s.words, s2.words, s.free)
    && if e.Spawned? then e.pid !in s.procs && e.pid in s2.procs && SpawnedAs(s, op, e, s2, s2.procs[e.pid])
       else e == Quiet && s2 == s.(words := s2.words)
  }

  ghost predicate SpawnedAs(s: Sys, op: Op, e: Event, s2: Sys, p: Space)
    requires op.OpSpawn? && e.Spawned?
  {
    && s2 == AfterSpawn(s, e.pid, s2.words, s2.free, p.mem, p.bounds, p.log) && Started(s.words, s.free, s.kroot, s2.words, s2.free, p)
    && MakesSpawn(op.v, op.perms, op.low, op.native, op.heapStart, s2.words, p)
    && e.steps == p.log && e.clear == ImageClear(op.v, |op.perms|)
  }

  ghost predicate ReapStep(s: Sys, pid: nat, e: Event, s2: Sys) {
    if pid in s.procs then e == Reaped(pid) && s2 == AfterReap(s, pid) else e == Quiet && s2 == s
  }

  ghost predicate CreateStep(a: Shot, e: Event, b: Shot) {
    && e == Quiet
    && exists id: nat :: id !in a.sys.shms && b.sys == AfterShm(a.sys, id, {}) && TookSlot(a.objs, id, Shm.SharedMem(0, 0, 0, 1), b.objs)
  }

  ghost predicate CloseStep(a: Shot, id: nat, e: Event, b: Shot) {
    && b.objs == Shm.Dropped(a.objs, id)
    && if Shm.RefCount(a.objs, id) == 1 then e == Closed(id) && id in a.sys.shms && b.sys == AfterClose(a.sys, id) else e == Quiet && b.sys == a.sys
  }

  /** Growing beyond the frames an object has moves it to free ones, or changes nothing when
      there are not enough. */
  ghost predicate TruncateStep(a: Shot, id: nat, size: nat, e: Event, b: Shot) {
    && e == Quiet
    && if !Shm.Live(a.objs, id) then b == a
       else (b == a && !Shm.Stays(a.objs[id].value, size)) || exists phys: nat :: Resizes(a, id, size, phys, b)
  }

  ghost predicate Resizes(a: Shot, id: nat, size: nat, phys: nat, b: Shot)
    requires Shm.Live(a.objs, id)
  {
    && b.objs == a.objs[id := Some(Shm.Resized(a.objs[id].value, size, phys))]
    && if Shm.Stays(a.objs[id].value, size) then b.sys == a.sys
       else id in a.sys.shms && Shm.Backing(b.objs, id) <= a.sys.free && b.sys == AfterShm(a.sys, id, Shm.Backing(b.objs, id))
  }

  ghost predicate KernelStep(s: Sys, op: Op, e: Event, s2: Sys)
    requires op.OpKernelMap? || op.OpKernelUnmap?
  {
    e == Quiet && exists ok: bool, added: seq<nat> :: KernelTo(s, op, ok, added, s2)
  }

  ghost predicate KernelTo(s: Sys, op: Op, ok: bool, added: seq<nat>, s2: Sys)
    requires op.OpKernelMap? || op.OpKernelUnmap?
  {
    && s2 == AfterKernel(s, s2.words, s2.free, s2.krole)
    && Grown(s.words, s2.words, s.kroot, s.krole, s2.krole, s.free, s2.free, added) && NoUserPage(s2.words, s.kroot)
    && if op.OpKernelMap? then KernelMaps(s, op.virt, op.phys, op.perm, ok, s2) else KernelUnmaps(s, op.virt, ok, s2)
  }

  /** From `a`, operation `op` came to `e` and left `b`. */
  ghost predicate Step(a: Shot, op: Op, e: Event, b: Shot) {
    exists s2: Sys, objs2: Shm.Objects :: b == Shot(s2, objs2) && LeadsTo(a, op, e, s2, objs2)
  }

  ghost predicate LeadsTo(a: Shot, op: Op, e: Event, s2: Sys, objs2: Shm.Objects) {
    match op
    case OpSpawn(_, _, _, _, _) => objs2 == a.objs && SpawnStep(a.sys, op, e, s2)
    case OpReap(pid) => objs2 == a.objs && ReapStep(a.sys, pid, e, s2)
    case OpAct(pid, act) => objs2 == a.objs && ActStep(a, pid, act, e, s2)
    case OpShmCreate => CreateStep(a, e, Shot(s2, objs2))
    case OpShmDup(id) => e == Quiet && s2 == a.sys && objs2 == Shm.Taken(a.objs, id)
    case OpShmClose(id) => CloseStep(a, id, e, Shot(s2, objs2))
    case OpShmTruncate(id, size) => TruncateStep(a, id, size, e, Shot(s2, objs2))
    case OpKernelMap(_, _, _) => objs2 == a.objs && KernelStep(a.sys, op, e, s2)
    case OpKernelUnmap(_) => objs2 == a.objs && KernelStep(a.sys, op, e, s2)
  }

  method PerformSpawn(m: Machine, op: Op, ghost s: Sys, ghost all: set<nat>) returns (ghost e: Event, ghost s2: Sys)
    requires m.Holds(s) && Sane(s, all) && op.OpSpawn? && ImageOk(op.perms, op.low)
    modifies m, m.pt, m.pt.pmm.bits
    ensures m.Holds(s2) && Sane(s2, all) && Step(Shot(s, old(m.shm.objs)), op, e, Shot(s2, m.shm.objs))
  {
    SaneKernel(s, all);
    ghost var p;
    var pid;
    pid, s2, p := m.Create(op.v, op.perms, op.low, op.native, op.heapStart, s);
    e := SpawnDone(s, all, m.shm.objs, op, pid, p, m.pt.words, m.pt.pmm.Free(), s2);
  }

  lemma SpawnDone(s: Sys, all: set<nat>, objs: Shm.Objects, op: Op, pid: Option<nat>, p: Space, w2: Words, free2: set<nat>, s2: Sys) returns (e: Event)
    requires Sane(s, all) && op.OpSpawn? && SameOutside(s.words, w2, s.free)
    requires pid.None? ==> s2 == s.(words := w2)
    requires pid.Some? ==>
               && pid.value !in s.procs && s2 == AfterSpawn(s, pid.value, w2, free2, p.mem, p.bounds, p.log)
               && pid.value in s2.procs && s2.procs[pid.value] == p
               && Started(s.words, s.free, s.kroot, w2, free2, p) && MakesSpawn(op.v, op.perms, op.low, op.native, op.heapStart, w2, p)
    ensures Sane(s2, all) && Step(Shot(s, objs), op, e, Shot(s2, objs))
  {
    if pid.Some? {
      SpawnSane(s, all, pid.value, w2, free2, p);
      e := Spawned(pid.value, p.log, ImageClear(op.v, |op.perms|));
      assert SpawnedAs(s, op, e, s2, p);
    } else {
      NoSpawnSane(s, all, w2);
      e := Quiet;
    }
    assert LeadsTo(Shot(s, objs), op, e, s2, objs);
  }

  method PerformReap(m: Machine, pid: nat, ghost s: Sys, ghost all: set<nat>) returns (ghost e: Event, ghost s2: Sys)
    requires m.Holds(s) && Sane(s, all)
    modifies m, m.pt.pmm.bits
    ensures m.Holds(s2) && Sane(s2, all) && Step(Shot(s, old(m.shm.objs)), OpReap(pid), e, Shot(s2, m.shm.objs))
  {
    if pid in m.procs {
      SaneWorkable(s, all, pid);
      s2 := m.Reap(pid, s);
    } else {
      s2 := s;
    }
    e := ReapDone(s, all, m.shm.objs, pid, s2);
  }

  lemma ReapDone(s: Sys, all: set<nat>, objs: Shm.Objects, pid: nat, s2: Sys) returns (e: Event)
    requires Sane(s, all) && s2 == if pid in s.procs then AfterReap(s, pid) else s
    ensures Sane(s2, all) && Step(Shot(s, objs), OpReap(pid), e, Shot(s2, objs))
  {
    e := Quiet;
    if pid in s.procs {
      ReapSane(s, all, pid);
      e := Reaped(pid);
    }
    assert LeadsTo(Shot(s, objs), OpReap(pid), e, s2, objs);
  }

  method PerformAct(m: Machine, pid: nat, act: ProcOp, ghost s: Sys, ghost all: set<nat>) returns (ghost e: Event, ghost s2: Sys)
    requires m.Holds(s) && Sane(s, all) && Harmless(OpAct(pid, act), m.pt.words, m.procs, m.shm.objs)
    modifies m, m.pt, m.pt.pmm.bits
    ensures m.Holds(s2) && Sane(s2, all) && Step(Shot(s, old(m.shm.objs)), OpAct(pid, act), e, Shot(s2, m.shm.objs))
  {
    var objs := m.shm.objs;
    if pid !in m.procs || (act.MmapShared? && !Shm.Live(objs, act.id)) {
      e, s2 := Quiet, s;
      NothingDone(Shot(s, objs), pid, act);
    } else {
      ghost var using := UseReady(m, s, all, pid, act);
      ghost var steps;
      steps, s2 := PerformOne(m, pid, Resolved(act, objs), using, all);
      e := WorkDone(Shot(s, objs), pid, act, steps, s2);
    }
  }

  lemma NothingDone(a: Shot, pid: nat, act: ProcOp)
    requires pid !in a.sys.procs || (act.MmapShared? && !Shm.Live(a.objs, act.id))
    ensures Step(a, OpAct(pid, act), Quiet, a)
  {
    assert LeadsTo(a, OpAct(pid, act), Quiet, a.sys, a.objs);
  }

  lemma WorkDone(a: Shot, pid: nat, act: ProcOp, steps: Log, s2: Sys) returns (e: Event)
    requires pid in a.sys.procs && (act.MmapShared? ==> Shm.Live(a.objs, act.id))
    requires Acts(Using(a.sys, pid, act), pid, Resolved(act, a.objs), steps, s2)
    ensures Step(a, OpAct(pid, act), e, Shot(s2, a.objs))
  {
    var act2 := Resolved(act, a.objs);
    e := Worked(pid, act2, steps, WasClear(a.sys, pid, act2));
    assert LeadsTo(a, OpAct(pid, act), e, s2, a.objs);
  }

  /** The state in which the process already counts the object it is about to map. */
  lemma UseReady(m: Machine, s: Sys, all: set<nat>, pid: nat, act: ProcOp) returns (using: Sys)
    requires m.Holds(s) && Sane(s, all) && pid in m.procs && Harmless(OpAct(pid, act), m.pt.words, m.procs, m.shm.objs)
    requires act.MmapShared? ==> Shm.Live(m.shm.objs, act.id)
    ensures pid in s.procs && using == Using(s, pid, act) && m.Holds(using) && Sane(using, all) && pid in using.procs
    ensures Suits(Resolved(act, m.shm.objs), using.procs[pid], using.shms)
  {
    using := Using(s, pid, act);
    if act.MmapShared? {
      var objs, id := m.shm.objs, act.id;
      LiveListed(objs, id);
      UseSane(s, all, pid, id);
      UseTabled(m.procs, s, pid, id);
      UseSuits(s, pid, Resolved(act, objs), objs);
    } else {
      SuitsTable(m.procs, s, pid, act);
    }
  }

  lemma SuitsTable(procs: map<nat, Saved>, s: Sys, pid: nat, act: ProcOp)
    requires Tabled(procs, s.procs) && pid in procs && !act.MmapShared?
    requires act.Munmap? ==> !Inside(Proc.StackRange(procs[pid].bounds.stackBase), FirstPage(act.addr), EndPage(act.addr, act.len))
    ensures Suits(act, s.procs[pid], s.shms)
  {
    assert Same(procs[pid], s.procs[pid]);
  }

  lemma LiveListed(objs: Shm.Objects, id: nat)
    requires Shm.Live(objs, id)
    ensures id in ShmFrames(objs)
  {
  }

  lemma UseSuits(s: Sys, pid: nat, act: ProcOp, objs: Shm.Objects)
    requires pid in s.procs && act.MmapShared? && s.shms == ShmFrames(objs) && Shm.Live(objs, act.id)
    requires act.f == objs[act.id].value.phys && act.n == objs[act.id].value.pages
    ensures Suits(act, AfterUse(s, pid, act.id).procs[pid], s.shms)
  {
  }

  lemma UseTabled(procs: map<nat, Saved>, s: Sys, pid: nat, id: nat)
    requires Tabled(procs, s.procs) && pid in s.procs
    ensures Tabled(procs, AfterUse(s, pid, id).procs)
  {
  }

  method PerformOne(m: Machine, pid: nat, act: ProcOp, ghost s: Sys, ghost all: set<nat>) returns (ghost steps: Log, ghost s2: Sys)
    requires m.Holds(s) && Sane(s, all) && pid in m.procs && pid in s.procs && Suits(act, s.procs[pid], s.shms)
    modifies m, m.pt, m.pt.pmm.bits
    ensures m.Holds(s2) && Sane(s2, all) && Acts(s, pid, act, steps, s2) && unchanged(m.shm)
  {
    SaneWorkable(s, all, pid);
    steps, s2 := m.Act(pid, act, s);
    ActsSane(s, all, pid, act, steps, s2);
  }

  method PerformShm(m: Machine, op: Op, ghost s: Sys, ghost all: set<nat>) returns (ghost e: Event, ghost s2: Sys)
    requires m.Holds(s) && Sane(s, all) && Harmless(op, m.pt.words, m.procs, m.shm.objs)
    requires op.OpShmCreate? || op.OpShmDup? || op.OpShmClose? || op.OpShmTruncate?
    modifies m.shm, m.pt.pmm.bits
    ensures m.Holds(s2) && Sane(s2, all) && Step(Shot(s, old(m.shm.objs)), op, e, Shot(s2, m.shm.objs))
  {
    SaneObjects(s, all, m.shm.objs);
    match op
    case OpShmCreate => e, s2 := PerformCreate(m, s, all);
    case OpShmClose(id) => e, s2 := PerformClose(m, id, s, all);
    case OpShmTruncate(id, size) => e, s2 := PerformTruncate(m, id, size, s, all);
    case OpShmDup(id) => e, s2 := PerformDup(m, id, s);
  }

  method PerformCreate(m: Machine, ghost s: Sys, ghost all: set<nat>) returns (ghost e: Event, ghost s2: Sys)
    requires m.Holds(s) && Sane(s, all) && Shm.Sound(m.shm.objs, s.free)
    modifies m.shm
    ensures m.Holds(s2) && Sane(s2, all) && Step(Shot(s, old(m.shm.objs)), OpShmCreate, e, Shot(s2, m.shm.objs))
  {
    ghost var objs := m.shm.objs;
    var id;
    id, s2 := m.ShmCreate(s);
    e := Quiet;
    CreateSane(s, all, id);
    assert LeadsTo(Shot(s, objs), OpShmCreate, e, s2, m.shm.objs);
  }

  method PerformDup(m: Machine, id: nat, ghost s: Sys) returns (ghost e: Event, ghost s2: Sys)
    requires m.Holds(s) && Shm.Sound(m.shm.objs, s.free)
    modifies m.shm
    ensures m.Holds(s2) && s2 == s && Step(Shot(s, old(m.shm.objs)), OpShmDup(id), e, Shot(s2, m.shm.objs))
  {
    ghost var objs := m.shm.objs;
    m.ShmDup(id, s);
    e, s2 := Quiet, s;
    assert LeadsTo(Shot(s, objs), OpShmDup(id), e, s2, m.shm.objs);
  }

  method PerformClose(m: Machine, id: nat, ghost s: Sys, ghost all: set<nat>) returns (ghost e: Event, ghost s2: Sys)
    requires m.Holds(s) && Sane(s, all) && Shm.Sound(m.shm.objs, s.free) && Harmless(OpShmClose(id), m.pt.words, m.procs, m.shm.objs)
    modifies m.shm, m.pt.pmm.bits
    ensures m.Holds(s2) && Sane(s2, all) && Step(Shot(s, old(m.shm.objs)), OpShmClose(id), e, Shot(s2, m.shm.objs))
  {
    ghost var objs := m.shm.objs;
    ghost var last := Shm.RefCount(objs, id) == 1;
    if last {
      UnreachedUnused(s.words, m.procs, s.procs, Shm.Backing(objs, id));
    }
    s2 := m.ShmClose(id, s);
    e := CloseDone(s, all, objs, id, s2, m.shm.objs);
  }

  lemma CloseDone(s: Sys, all: set<nat>, objs: Shm.Objects, id: nat, s2: Sys, objs2: Shm.Objects) returns (e: Event)
    requires Sane(s, all) && s.shms == ShmFrames(objs) && objs2 == Shm.Dropped(objs, id)
    requires Shm.RefCount(objs, id) == 1 ==> Unused(s.words, s.procs, Shm.Backing(objs, id))
    requires if Shm.RefCount(objs, id) == 1 then id in s.shms && s2 == AfterClose(s, id) else s2 == s
    ensures Sane(s2, all) && Step(Shot(s, objs), OpShmClose(id), e, Shot(s2, objs2))
  {
    e := Quiet;
    if Shm.RefCount(objs, id) == 1 {
      CloseSane(s, all, id);
      e := Closed(id);
    }
    assert LeadsTo(Shot(s, objs), OpShmClose(id), e, s2, objs2);
  }

  method PerformTruncate(m: Machine, id: nat, size: nat, ghost s: Sys, ghost all: set<nat>) returns (ghost e: Event, ghost s2: Sys)
    requires m.Holds(s) && Sane(s, all) && Shm.Sound(m.shm.objs, s.free) && Harmless(OpShmTruncate(id, size), m.pt.words, m.procs, m.shm.objs)
    modifies m.shm, m.pt.pmm.bits
    ensures m.Holds(s2) && Sane(s2, all) && Step(Shot(s, old(m.shm.objs)), OpShmTruncate(id, size), e, Shot(s2, m.shm.objs))
  {
    ghost var objs := m.shm.objs;
    if Shm.Live(objs, id) && !Shm.Stays(objs[id].value, size) {
      UnreachedUnused(s.words, m.procs, s.procs, Shm.Backing(objs, id));
    }
    var ok;
    ghost var frames;
    ok, s2, frames := m.ShmTruncate(id, size, s);
    e := TruncateDone(s, all, objs, id, size, ok, frames, s2, m.shm.objs);
  }

  lemma TruncateDone(s: Sys, all: set<nat>, objs: Shm.Objects, id: nat, size: nat, ok: bool, frames: set<nat>, s2: Sys, objs2: Shm.Objects) returns (e: Event)
    requires Sane(s, all) && s.shms == ShmFrames(objs)
    requires Shm.Live(objs, id) && !Shm.Stays(objs[id].value, size) ==> Unused(s.words, s.procs, Shm.Backing(objs, id))
    requires ok ==> Shm.Live(objs, id) && Shm.Live(objs2, id)
    requires if ok then objs2 == objs[id := Some(Shm.Resized(objs[id].value, size, objs2[id].value.phys))] else objs2 == objs
    requires ok && !Shm.Stays(objs[id].value, size) ==> frames == Shm.Backing(objs2, id)
    requires Shm.Live(objs, id) && Shm.Stays(objs[id].value, size) ==> ok
    requires if ok && !Shm.Stays(objs[id].value, size) then id in s.shms && frames <= s.free && s2 == AfterShm(s, id, frames) else s2 == s
    ensures Sane(s2, all) && Step(Shot(s, objs), OpShmTruncate(id, size), e, Shot(s2, objs2))
  {
    e := Quiet;
    if ok {
      LiveListed(objs, id);
      if !Shm.Stays(objs[id].value, size) {
        ShmSane(s, all, id, frames);
      }
      assert Resizes(Shot(s, objs), id, size, objs2[id].value.phys, Shot(s2, objs2));
    }
    assert LeadsTo(Shot(s, objs), OpShmTruncate(id, size), e, s2, objs2);
  }

  method PerformKernel(m: Machine, op: Op, ghost s: Sys, ghost all: set<nat>) returns (ghost e: Event, ghost s2: Sys)
    requires m.Holds(s) && Sane(s, all) && Harmless(op, m.pt.words, m.procs, m.shm.objs) && (op.OpKernelMap? || op.OpKernelUnmap?)
    modifies m.pt, m.pt.pmm.bits
    ensures m.Holds(s2) && Sane(s2, all) && Step(Shot(s, old(m.shm.objs)), op, e, Shot(s2, m.shm.objs))
  {
    SaneKernel(s, all);
    var ok;
    ghost var added;
    if op.OpKernelMap? {
      ok, s2, added := m.KernelMap(op.virt, op.phys, op.perm, s);
    } else {
      ok, s2, added := m.KernelUnmap(op.virt, s);
    }
    e := KernelDone(s, all, m.shm.objs, op, ok, added, s2);
  }

  lemma KernelDone(s: Sys, all: set<nat>, objs: Shm.Objects, op: Op, ok: bool, added: seq<nat>, s2: Sys) returns (e: Event)
    requires Sane(s, all) && s2 == AfterKernel(s, s2.words, s2.free, s2.krole) && (op.OpKernelMap? || op.OpKernelUnmap?)
    requires Grown(s.words, s2.words, s.kroot, s.krole, s2.krole, s.free, s2.free, added) && NoUserPage(s2.words, s.kroot)
    requires if op.OpKernelMap? then KernelMaps(s, op.virt, op.phys, op.perm, ok, s2) else KernelUnmaps(s, op.virt, ok, s2)
    ensures Sane(s2, all) && Step(Shot(s, objs), op, e, Shot(s2, objs))
  {
    KernelSane(s, all, s2.words, s2.free, s2.krole, added);
    e := Quiet;
    KernelLeads(Shot(s, objs), op, ok, added, s2);
  }

  lemma KernelLeads(a: Shot, op: Op, ok: bool, added: seq<nat>, s2: Sys)
    requires s2 == AfterKernel(a.sys, s2.words, s2.free, s2.krole) && (op.OpKernelMap? || op.OpKernelUnmap?)
    requires Grown(a.sys.words, s2.words, a.sys.kroot, a.sys.krole, s2.krole, a.sys.free, s2.free, added) && NoUserPage(s2.words, a.sys.kroot)
    requires if op.OpKernelMap? then KernelMaps(a.sys, op.virt, op.phys, op.perm, ok, s2) else KernelUnmaps(a.sys, op.virt, ok, s2)
    ensures Step(a, op, Quiet, Shot(s2, a.objs))
  {
    assert KernelTo(a.sys, op, ok, added, s2);
    assert LeadsTo(a, op, Quiet, s2, a.objs);
  }

  /** One operation of the kernel. */
  method Perform(m: Machine, op: Op, ghost s: Sys, ghost all: set<nat>) returns (ghost e: Event, ghost s2: Sys)
    requires m.Holds(s) && Sane(s, all) && Harmless(op, m.pt.words, m.procs, m.shm.objs)
    modifies m, m.pt, m.pt.pmm.bits, m.shm
    ensures m.Holds(s2) && Sane(s2, all) && Step(Shot(s, old(m.shm.objs)), op, e, Shot(s2, m.shm.objs))
  {
    match op
    case OpSpawn(_, _, _, _, _) => e, s2 := PerformSpawn(m, op, s, all);
    case OpReap(pid) => e, s2 := PerformReap(m, pid, s, all);
    case OpAct(pid, act) => e, s2 := PerformAct(m, pid, act, s, all);
    case OpKernelMap(_, _, _) => e, s2 := PerformKernel(m, op, s, all);
    case OpKernelUnmap(_) => e, s2 := PerformKernel(m, op, s, all);
    case _ => e, s2 := PerformShm(m, op, s, all);
  }

  /** The page tables after boot show ring 3 nothing. */
  lemma BootKernel(w: Words, root: nat, role: Roles)
    requires Tree(w, root, role) && forall p :: 0 <= p < PAGES ==> Walk(w, root, p) == Some(Page(p, true, false, false))
    ensures KernelInv(w, root, role)
  {
    forall p: nat | p < ALL_PAGES && Walk(w, root, p).Some? ensures !Walk(w, root, p).value.user {
      WalkIsLeaf(w, root, role, p);
    }
  }

  /** No process and no shared object exists. */
  ghost predicate Fresh(a: Shot) { a.sys.procs == map[] && a.sys.shms == map[] && a.objs == [] }

  /** A run so far: each operation with what it came to and the machine after it. */
  datatype Past = Boot(shot: Shot) | Then(past: Past, op: Op, event: Event, shot: Shot)

  function OpsOf(h: Past): seq<Op> {
    match h
    case Boot(_) => []
    case Then(past, op, _, _) => OpsOf(past) + [op]
  }

  /** From boot on every state follows from the one before, and in every state each of the frames
      `all` has exactly one owner and every process its invariant. */
  ghost predicate Ran(h: Past, all: set<nat>) {
    && Sane(h.shot.sys, all) && h.shot.sys.shms == ShmFrames(h.shot.objs)
    && match h
       case Boot(a) => Fresh(a)
       case Then(past, op, e, b) => Ran(past, all) && Step(past.shot, op, e, b)
  }

  /** Any run of operations from boot, up to the first harmful one: every frame that was free at
      boot or held the kernel's tables still has exactly one owner, every process has its
      invariant, and each state follows from the one before by what the operation does. */
  method RunAll(frames: FrameBitmap, pml4: nat, pdpt: nat, pd: nat, ops: seq<Op>) returns (m: Machine, done: nat, ghost h: Past, ghost all: set<nat>)
    requires frames.Valid() && pml4 != pdpt && !(pd <= pml4 < pd + 4) && !(pd <= pdpt < pd + 4)
    requires PageTables.BootRoles(pml4, pdpt, pd).Keys !! frames.Free()
    modifies frames.bits
    ensures fresh(m) && m.pt.pmm == frames && all == old(frames.Free()) + PageTables.BootRoles(pml4, pdpt, pd).Keys
    ensures done <= |ops| && (done == |ops| || !Harmless(ops[done], m.pt.words, m.procs, m.shm.objs))
    ensures Ran(h, all) && OpsOf(h) == ops[..done] && m.Holds(h.shot.sys) && h.shot.objs == m.shm.objs
  {
    ghost var role := PageTables.BootRoles(pml4, pdpt, pd);
    all := frames.Free() + role.Keys;
    ghost var s, e;
    m, s := Booted(frames, pml4, pdpt, pd, all);
    done, h := 0, Boot(Shot(s, m.shm.objs));
    while done < |ops| && Harmless(ops[done], m.pt.words, m.procs, m.shm.objs)
      invariant done <= |ops| && m.Holds(s) && h.shot == Shot(s, m.shm.objs)
      invariant Ran(h, all) && OpsOf(h) == ops[..done]
      invariant fresh(m) && fresh(m.pt) && fresh(m.shm) && m.pt.pmm == frames
    {
      e, s := Perform(m, ops[done], s, all);
      h := Extended(h, all, ops, done, e, Shot(s, m.shm.objs));
      done := done + 1;
    }
  }

  lemma Longer<T>(s: seq<T>, n: nat)
    requires n < |s|
    ensures s[..n + 1] == s[..n] + [s[n]]
  {
  }

  lemma Extended(h: Past, all: set<nat>, ops: seq<Op>, n: nat, e: Event, b: Shot) returns (h2: Past)
    requires Ran(h, all) && n < |ops| && OpsOf(h) == ops[..n] && Step(h.shot, ops[n], e, b) && Sane(b.sys, all) && b.sys.shms == ShmFrames(b.objs)
    ensures Ran(h2, all) && h2.shot == b && OpsOf(h2) == ops[..n + 1]
  {
    h2 := Then(h, ops[n], e, b);
    Longer(ops, n);
  }

  method Booted(frames: FrameBitmap, pml4: nat, pdpt: nat, pd: nat, ghost all: set<nat>) returns (m: Machine, ghost s: Sys)
    requires frames.Valid() && pml4 != pdpt && !(pd <= pml4 < pd + 4) && !(pd <= pdpt < pd + 4)
    requires PageTables.BootRoles(pml4, pdpt, pd).Keys !! frames.Free() && all == frames.Free() + PageTables.BootRoles(pml4, pdpt, pd).Keys
    ensures fresh(m) && fresh(m.pt) && fresh(m.shm) && m.pt.pmm == frames && m.Holds(s) && Sane(s, all)
    ensures s.procs == map[] && s.shms == map[] && m.shm.objs == [] && s.free == frames.Free()
  {
    ghost var role := PageTables.BootRoles(pml4, pdpt, pd);
    var pt := new PageTables.Boot(frames, pml4, pdpt, pd);
    BootKernel(pt.words, pml4, role);
    var shm := new Shm.ShmTable(frames);
    m := new Machine(pt, shm, pml4, role);
    s := Sys(pt.words, frames.Free(), pml4, role, map[], map[]);
    ghost var own := BootAccounted(pt.words, frames.Free(), pml4, role);
  }
}
