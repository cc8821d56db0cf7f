/** What every run means for its processes: what the operations made on the way is what ring 3
    reaches at the end. */
module History {
  import opened Wrappers
  import opened Pmm
  import opened PageTable
  import opened Paging
  import opened AddressSpace
  import opened ProcessMemory
  import opened Process
  import opened Spawn
  import opened Views
  import opened System
  import opened Machine
  import opened Runs
  import opened Reach
  import Shm

  // ---- what the events say about a process ----------------------------------------------------------

  /** The process an event is about. */
  function Target(e: Event): Option<nat> {
    match e
    case Spawned(pid, _, _) => Some(pid)
    case Worked(pid, _, _, _) => Some(pid)
    case Reaped(pid) => Some(pid)
    case _ => None
  }

  /** The process exists: it was created and not reaped. */
  predicate Alive(h: Past, pid: nat) { h.Then? && NowAlive(h.event, pid, Alive(h.past, pid)) }

  predicate NowAlive(e: Event, pid: nat, was: bool) {
    if e == Reaped(pid) then false else (e.Spawned? && e.pid == pid) || was
  }

  /** The steps made in its page table by its creation and then by each of its operations. */
  function LogOf(h: Past, pid: nat): Log {
    match h
    case Boot(_) => []
    case Then(past, _, e, _) => NowLog(e, pid, LogOf(past, pid))
  }

  function NowLog(e: Event, pid: nat, was: Log): Log {
    if e.Spawned? && e.pid == pid then e.steps else if e.Worked? && e.pid == pid then was + e.steps else was
  }

  /** The objects it mapped that are not finally closed since. */
  function UsedOf(h: Past, pid: nat): set<nat> {
    match h
    case Boot(_) => {}
    case Then(past, _, e, _) => NowUsed(e, pid, UsedOf(past, pid))
  }

  function NowUsed(e: Event, pid: nat, was: set<nat>): set<nat> {
    match e
    case Spawned(p, _, _) => if p == pid then {} else was
    case Worked(p, act, _, _) => if p == pid && act.MmapShared? then was + {act.id} else was
    case Closed(id) => was - {id}
    case _ => was
  }

  /** Its image and all its mappings were placed clear of what was recorded. */
  predicate TidyOf(h: Past, pid: nat) { h.Then? && NowTidy(h.event, pid, TidyOf(h.past, pid)) }

  predicate NowTidy(e: Event, pid: nat, was: bool) {
    if e.Spawned? && e.pid == pid then e.clear else if e.Worked? && e.pid == pid then was && e.clear else was
  }

  // ---- isolation ----------------------------------------------------------------------------------------

  /** Nothing of the process changed but which objects it still counts as mapped: its records,
      frames, bounds and log, and every page it reaches, are what they were. */
  ghost predicate Untouched(s: Sys, s2: Sys, e: Event, pid: nat)
    requires pid in s.procs
  {
    && pid in s2.procs && SameWalks(s.words, s2.words, s.procs[pid].mem.root)
    && s2.procs[pid] == s.procs[pid].(used := NowUsed(e, pid, s.procs[pid].used))
  }

  ghost predicate OthersUntouched(s: Sys, s2: Sys, e: Event) {
    && (forall q :: q in s.procs && Some(q) != Target(e) ==> Untouched(s, s2, e, q))
    && (forall q :: q in s2.procs && Some(q) != Target(e) ==> q in s.procs)
  }

  ghost predicate OthersSame(s: Sys, w2: Words, except: Option<nat>) {
    forall q :: q in s.procs && Some(q) != except ==> SameWalks(s.words, w2, s.procs[q].mem.root)
  }

  /** The same processes, but for one, with the same translations. */
  lemma Kept(s: Sys, s2: Sys, e: Event)
    requires OthersSame(s, s2.words, Target(e)) && (forall q :: q in s2.procs && Some(q) != Target(e) ==> q in s.procs)
    requires forall q :: q in s.procs && Some(q) != Target(e) ==> q in s2.procs && s2.procs[q] == s.procs[q].(used := NowUsed(e, q, s.procs[q].used))
    ensures OthersUntouched(s, s2, e)
  {
  }

  lemma SameProcs(s: Sys, s2: Sys)
    requires s2.procs == s.procs && AllSame(s.words, s2.words, s.procs)
    ensures OthersUntouched(s, s2, Quiet)
  {
    Kept(s, s2, Quiet);
  }

  lemma ActsLocal(s: Sys, pid: nat, op: ProcOp, ops: Log, s2: Sys) returns (m2: Memory)
    requires pid in s.procs && Acts(s, pid, op, ops, s2)
    ensures Local(s.words, s.free, s.procs[pid].mem, s2.words, s2.free, m2)
    ensures s2.procs.Keys == s.procs.Keys && forall q :: q in s.procs && q != pid ==> s2.procs[q] == s.procs[q]
  {
    var m: Memory, b2: Bounds :| ActsTo(s, pid, op, ops, s2, m, b2);
    m2 := m;
  }

  lemma LocalOthers(s: Sys, all: set<nat>, pid: nat, w2: Words, free2: set<nat>, m2: Memory)
    requires Sane(s, all) && pid in s.procs && Local(s.words, s.free, s.procs[pid].mem, w2, free2, m2)
    ensures AllSame(s.words, w2, s.procs - {pid}) && SameWalks(s.words, w2, s.kroot)
  {
    var own: Owners :| Inv(s, own) && own.Keys == all;
    Isolation(s, own, pid, w2, free2, m2);
  }

  lemma FewerSame(s: Sys, pid: nat, w2: Words)
    requires AllSame(s.words, w2, s.procs - {pid})
    ensures OthersSame(s, w2, Some(pid))
  {
    forall q | q in s.procs && q != pid ensures SameWalks(s.words, w2, s.procs[q].mem.root) {
      assert q in s.procs - {pid} && (s.procs - {pid})[q] == s.procs[q];
    }
  }

  lemma ActsOthers(s: Sys, all: set<nat>, pid: nat, op: ProcOp, ops: Log, s2: Sys)
    requires Sane(s, all) && pid in s.procs && Acts(s, pid, op, ops, s2)
    ensures OthersSame(s, s2.words, Some(pid)) && SameWalks(s.words, s2.words, s.kroot)
    ensures s2.procs.Keys == s.procs.Keys && forall q :: q in s.procs && q != pid ==> s2.procs[q] == s.procs[q]
  {
    var m2 := ActsLocal(s, pid, op, ops, s2);
    LocalOthers(s, all, pid, s2.words, s2.free, m2);
    FewerSame(s, pid, s2.words);
  }

  lemma WorkOthers(a: Shot, all: set<nat>, pid: nat, act: ProcOp, e: Event, s2: Sys)
    requires Sane(a.sys, all) && a.sys.shms == ShmFrames(a.objs) && ActStep(a, pid, act, e, s2)
    ensures OthersUntouched(a.sys, s2, e) && SameWalks(a.sys.words, s2.words, a.sys.kroot)
  {
    if e.Worked? {
      var act2 := Resolved(act, a.objs);
      var s1 := Using(a.sys, pid, act2);
      if act.MmapShared? {
        LiveListed(a.objs, act.id);
        UseSane(a.sys, all, pid, act.id);
      }
      ActsOthers(s1, all, pid, act2, e.steps, s2);
      UsingCarries(a.sys, pid, act2, e, s2);
    } else {
      SameProcs(a.sys, s2);
    }
  }

  lemma UsingCarries(s: Sys, pid: nat, act: ProcOp, e: Event, s2: Sys)
    requires e.Worked? && e.pid == pid && pid in s.procs && OthersSame(Using(s, pid, act), s2.words, Some(pid)) && s2.procs.Keys == Using(s, pid, act).procs.Keys
    requires forall q :: q in s.procs && q != pid ==> s2.procs[q] == Using(s, pid, act).procs[q]
    ensures OthersUntouched(s, s2, e)
  {
    var s1 := Using(s, pid, act);
    forall q | q in s.procs && q != pid ensures s2.procs[q] == s.procs[q] && SameWalks(s.words, s2.words, s.procs[q].mem.root) {
      assert q in s1.procs && s1.procs[q] == s.procs[q];
    }
    Kept(s, s2, e);
  }

  lemma FreeOthers(s: Sys, all: set<nat>, w2: Words)
    requires Sane(s, all) && SameOutside(s.words, w2, s.free)
    ensures AllSame(s.words, w2, s.procs) && SameWalks(s.words, w2, s.kroot)
  {
    var own: Owners :| Inv(s, own) && own.Keys == all;
    FreeWrites(s, own, w2);
  }

  lemma SpawnOthers(s: Sys, op: Op, e: Event, s2: Sys)
    requires op.OpSpawn? && SpawnStep(s, op, e, s2) && AllSame(s.words, s2.words, s.procs)
    ensures OthersUntouched(s, s2, e)
  {
    Kept(s, s2, e);
  }

  lemma ReapOthers(s: Sys, pid: nat, e: Event, s2: Sys)
    requires ReapStep(s, pid, e, s2)
    ensures OthersUntouched(s, s2, e) && s2.words == s.words
  {
    Kept(s, s2, e);
  }

  lemma KernelOthers(s: Sys, all: set<nat>, op: Op, ok: bool, added: seq<nat>, s2: Sys)
    requires Sane(s, all) && (op.OpKernelMap? || op.OpKernelUnmap?) && KernelTo(s, op, ok, added, s2)
    ensures AllSame(s.words, s2.words, s.procs)
  {
    var own: Owners :| Inv(s, own) && own.Keys == all;
    var own2 := KernelKeeps(s, own, s2.words, s2.free, s2.krole, added);
  }

  lemma KernelIsolates(s: Sys, all: set<nat>, op: Op, e: Event, s2: Sys)
    requires Sane(s, all) && (op.OpKernelMap? || op.OpKernelUnmap?) && KernelStep(s, op, e, s2)
    ensures OthersUntouched(s, s2, e)
  {
    var ok: bool, added: seq<nat> :| KernelTo(s, op, ok, added, s2);
    KernelOthers(s, all, op, ok, added, s2);
    SameProcs(s, s2);
  }

  /** Shared objects have nothing to do with page tables. */
  lemma ShmOthers(a: Shot, op: Op, e: Event, s2: Sys, objs2: Shm.Objects)
    requires op.OpShmCreate? || op.OpShmDup? || op.OpShmClose? || op.OpShmTruncate?
    requires LeadsTo(a, op, e, s2, objs2)
    ensures OthersUntouched(a.sys, s2, e) && s2.words == a.sys.words
  {
    Kept(a.sys, s2, e);
  }

  lemma RestOthers(a: Shot, all: set<nat>, op: Op, e: Event, s2: Sys, objs2: Shm.Objects)
    requires Sane(a.sys, all) && !op.OpAct? && LeadsTo(a, op, e, s2, objs2)
    ensures OthersUntouched(a.sys, s2, e)
    ensures !op.OpKernelMap? && !op.OpKernelUnmap? ==> SameWalks(a.sys.words, s2.words, a.sys.kroot)
  {
    match op
    case OpSpawn(_, _, _, _, _) =>
      FreeOthers(a.sys, all, s2.words);
      SpawnOthers(a.sys, op, e, s2);
    case OpReap(pid) => ReapOthers(a.sys, pid, e, s2);
    case OpKernelMap(_, _, _) => KernelIsolates(a.sys, all, op, e, s2);
    case OpKernelUnmap(_) => KernelIsolates(a.sys, all, op, e, s2);
    case _ => ShmOthers(a, op, e, s2, objs2);
  }

  /** Isolation: an operation changes nothing of any process but the one it is about, and only
      the kernel's own operations change what the kernel's map shows. */
  lemma StepIsolates(a: Shot, all: set<nat>, op: Op, e: Event, b: Shot)
    requires Sane(a.sys, all) && a.sys.shms == ShmFrames(a.objs) && Step(a, op, e, b)
    ensures OthersUntouched(a.sys, b.sys, e)
    ensures !op.OpKernelMap? && !op.OpKernelUnmap? ==> SameWalks(a.sys.words, b.sys.words, a.sys.kroot)
  {
    var s2: Sys, objs2: Shm.Objects :| b == Shot(s2, objs2) && LeadsTo(a, op, e, s2, objs2);
    if op.OpAct? {
      WorkOthers(a, all, op.pid, op.act, e, s2);
    } else {
      RestOthers(a, all, op, e, s2, objs2);
    }
  }

  // ---- the events tell the state ---------------------------------------------------------------------

  /** What is said of a process is true of it. */
  ghost predicate Told(s: Sys, pid: nat, alive: bool, log: Log, used: set<nat>, tidy: bool) {
    && (pid in s.procs <==> alive)
    && (pid in s.procs ==> s.procs[pid].log == log && s.procs[pid].used == used && (tidy ==> Agrees(s.words, s.procs[pid].mem)))
  }

  ghost predicate InPages(m: Memory) { forall a :: 0 <= a < |m.maps| ==> m.maps[a].v + m.maps[a].n <= PAGES }

  lemma AgreesKept(w: Words, w2: Words, m: Memory)
    requires Agrees(w, m) && SameWalks(w, w2, m.root) && InPages(m)
    ensures Agrees(w2, m)
  {
    forall a, q: nat | 0 <= a < |m.maps| && Covers(m.maps[a], q) && UserPage(w2, m.root, q)
      ensures FrameOf(w2, m.root, q) == m.maps[a].f + (q - m.maps[a].v)
    {
      assert UserPage(w, m.root, q);
    }
  }

  lemma SaneBounds(s: Sys, all: set<nat>, pid: nat)
    requires Sane(s, all) && pid in s.procs
    ensures InPages(s.procs[pid].mem)
  {
    SaneWorkable(s, all, pid);
    Proc.InBounds(s.words, s.procs[pid].mem, FramesOf(s.shms, s.procs[pid].used));
  }

  /** Of a process the event is not about. */
  lemma OtherTold(s: Sys, e: Event, s2: Sys, pid: nat, alive: bool, log: Log, used: set<nat>, tidy: bool)
    requires OthersUntouched(s, s2, e) && Some(pid) != Target(e) && Told(s, pid, alive, log, used, tidy)
    requires pid in s.procs ==> InPages(s.procs[pid].mem)
    ensures Told(s2, pid, NowAlive(e, pid, alive), NowLog(e, pid, log), NowUsed(e, pid, used), NowTidy(e, pid, tidy))
  {
    if pid in s.procs {
      assert Untouched(s, s2, e, pid);
      if tidy {
        AgreesKept(s.words, s2.words, s.procs[pid].mem);
      }
    }
  }

  /** Of the process that worked. */
  lemma WorkTold(a: Shot, pid: nat, act: ProcOp, e: Event, s2: Sys, alive: bool, log: Log, used: set<nat>, tidy: bool)
    requires ActStep(a, pid, act, e, s2) && e.Worked? && Told(a.sys, pid, alive, log, used, tidy)
    ensures Told(s2, pid, NowAlive(e, pid, alive), NowLog(e, pid, log), NowUsed(e, pid, used), NowTidy(e, pid, tidy))
  {
    var act2 := Resolved(act, a.objs);
    var s1 := Using(a.sys, pid, act2);
    ActsTold(s1, pid, act2, e.steps, s2);
  }

  lemma ActsTold(s: Sys, pid: nat, op: ProcOp, ops: Log, s2: Sys)
    requires pid in s.procs && Acts(s, pid, op, ops, s2)
    ensures InOrder(s.procs[pid].mem, s.procs[pid].bounds) && pid in s2.procs
    ensures s2.procs[pid].log == s.procs[pid].log + ops && s2.procs[pid].used == s.procs[pid].used
    ensures PlacedClear(op, s.procs[pid]) && Agrees(s.words, s.procs[pid].mem) ==> Agrees(s2.words, s2.procs[pid].mem)
  {
    var m2: Memory, b2: Bounds :| ActsTo(s, pid, op, ops, s2, m2, b2);
    assert KeepsAgreement(op, s.procs[pid], s.words, s2.words, m2);
  }

  lemma SpawnTold(s: Sys, op: Op, e: Event, s2: Sys)
    requires op.OpSpawn? && SpawnStep(s, op, e, s2) && e.Spawned?
    ensures Told(s2, e.pid, true, e.steps, {}, e.clear)
  {
  }

  lemma StepTold(a: Shot, all: set<nat>, op: Op, e: Event, b: Shot, pid: nat, alive: bool, log: Log, used: set<nat>, tidy: bool)
    requires Sane(a.sys, all) && a.sys.shms == ShmFrames(a.objs) && Step(a, op, e, b) && Told(a.sys, pid, alive, log, used, tidy)
    ensures Told(b.sys, pid, NowAlive(e, pid, alive), NowLog(e, pid, log), NowUsed(e, pid, used), NowTidy(e, pid, tidy))
  {
    if Target(e) == Some(pid) {
      TargetTold(a, op, e, b, alive, log, used, tidy);
    } else {
      StepIsolates(a, all, op, e, b);
      if pid in a.sys.procs {
        SaneBounds(a.sys, all, pid);
      }
      OtherTold(a.sys, e, b.sys, pid, alive, log, used, tidy);
    }
  }

  lemma TargetTold(a: Shot, op: Op, e: Event, b: Shot, alive: bool, log: Log, used: set<nat>, tidy: bool)
    requires Step(a, op, e, b) && Target(e).Some? && Told(a.sys, e.pid, alive, log, used, tidy)
    ensures Told(b.sys, e.pid, NowAlive(e, e.pid, alive), NowLog(e, e.pid, log), NowUsed(e, e.pid, used), NowTidy(e, e.pid, tidy))
  {
    var s2: Sys, objs2: Shm.Objects :| b == Shot(s2, objs2) && LeadsTo(a, op, e, s2, objs2);
    match op
    case OpSpawn(_, _, _, _, _) => SpawnTold(a.sys, op, e, s2);
    case OpAct(pid, act) => WorkTold(a, pid, act, e, s2, alive, log, used, tidy);
    case _ =>
  }

  /** The events of a run tell which processes exist, what each one's log is, which objects it
      counts as mapped, and that records and page table agree where all was placed clear. */
  lemma {:induction false} RunTold(h: Past, all: set<nat>, pid: nat)
    requires Ran(h, all)
    ensures Told(h.shot.sys, pid, Alive(h, pid), LogOf(h, pid), UsedOf(h, pid), TidyOf(h, pid))
  {
    match h
    case Boot(_) =>
    case Then(past, op, e, b) =>
      RunTold(past, all, pid);
      StepTold(past.shot, all, op, e, b, pid, Alive(past, pid), LogOf(past, pid), UsedOf(past, pid), TidyOf(past, pid));
  }

  // ---- what ring 3 reaches ------------------------------------------------------------------------------

  /** What was there before does not matter to a page that was mapped since. */
  lemma {:induction false} StartForgotten(log: Log, q: nat, start: Option<Page>)
    requires MappedSince(log, q)
    ensures LastSays(log, q, start) == LastSays(log, q, None)
    decreases |log|
  {
    if !TouchesPage(log[|log| - 1], q) {
      StartForgotten(log[..|log| - 1], q, start);
    }
  }

  /** After every run ring 3 reaches a page of a process exactly when one of the steps made by the
      process's creation and operations mapped it for ring 3 and none has unmapped it since, and then
      it shows what the last of them said. */
  lemma RunReach(m: Machine, h: Past, all: set<nat>, pid: nat, q: nat)
    requires m.Holds(h.shot.sys) && Ran(h, all) && Alive(h, pid) && q < ALL_PAGES
    ensures pid in m.procs
    ensures UserPage(m.pt.words, m.procs[pid].root, q) <==> MappedSince(LogOf(h, pid), q)
    ensures UserPage(m.pt.words, m.procs[pid].root, q) ==> Walk(m.pt.words, m.procs[pid].root, q) == LastSays(LogOf(h, pid), q, None)
  {
    RunTold(h, all, pid);
    assert Same(m.procs[pid], h.shot.sys.procs[pid]);
    StateReach(h.shot.sys, all, pid, q);
    if MappedSince(LogOf(h, pid), q) {
      StartForgotten(LogOf(h, pid), q, Walk(h.shot.sys.procs[pid].start, h.shot.sys.kroot, q));
    }
  }

  lemma StateReach(s: Sys, all: set<nat>, pid: nat, q: nat)
    requires Sane(s, all) && pid in s.procs && q < ALL_PAGES
    ensures UserPage(s.words, s.procs[pid].mem.root, q) <==> MappedSince(s.procs[pid].log, q)
    ensures Walk(s.words, s.procs[pid].mem.root, q) == LastSays(s.procs[pid].log, q, Walk(s.procs[pid].start, s.kroot, q))
  {
    var own: Owners :| Inv(s, own) && own.Keys == all;
    ReachExact(s, own, pid, q);
  }

  /** The frame behind it is the process's own or belongs to an object the process mapped that is
      not closed since; it is never free, never another process's, and never holds the kernel's tables. */
  lemma RunBacked(h: Past, all: set<nat>, pid: nat, q: nat)
    requires Ran(h, all) && pid in h.shot.sys.procs && q < ALL_PAGES && UserPage(h.shot.sys.words, h.shot.sys.procs[pid].mem.root, q)
    ensures var s := h.shot.sys;
            var x := FrameOf(s.words, s.procs[pid].mem.root, q);
            && (x in s.procs[pid].mem.frames || exists id :: id in UsedOf(h, pid) && x in Shm.Backing(h.shot.objs, id))
            && x !in s.free && x !in s.krole && forall other :: other in s.procs && other != pid ==> x !in s.procs[other].mem.frames
  {
    var s := h.shot.sys;
    RunTold(h, all, pid);
    SaneBacked(s, all, pid, q);
    var x := FrameOf(s.words, s.procs[pid].mem.root, q);
    if x !in s.procs[pid].mem.frames {
      var id :| id in s.procs[pid].used && id in s.shms && x in s.shms[id];
      FramesBacking(h.shot.objs, id);
    }
  }

  /** Two processes reach a common frame only if it belongs to an object that both mapped. */
  lemma RunApart(h: Past, all: set<nat>, pid: nat, q: nat, other: nat, r: nat)
    requires Ran(h, all) && pid in h.shot.sys.procs && other in h.shot.sys.procs && pid != other && q < ALL_PAGES && r < ALL_PAGES
    requires var s := h.shot.sys; UserPage(s.words, s.procs[pid].mem.root, q) && UserPage(s.words, s.procs[other].mem.root, r)
    requires var s := h.shot.sys; FrameOf(s.words, s.procs[pid].mem.root, q) == FrameOf(s.words, s.procs[other].mem.root, r)
    ensures var s := h.shot.sys;
            exists id :: id in UsedOf(h, pid) && id in UsedOf(h, other) && FrameOf(s.words, s.procs[pid].mem.root, q) in Shm.Backing(h.shot.objs, id)
  {
    var s := h.shot.sys;
    RunTold(h, all, pid);
    RunTold(h, all, other);
    var id := StateApart(s, all, pid, q, other, r);
    FramesBacking(h.shot.objs, id);
  }

  lemma StateApart(s: Sys, all: set<nat>, pid: nat, q: nat, other: nat, r: nat) returns (id: nat)
    requires Sane(s, all) && pid in s.procs && other in s.procs && pid != other && q < ALL_PAGES && r < ALL_PAGES
    requires UserPage(s.words, s.procs[pid].mem.root, q) && UserPage(s.words, s.procs[other].mem.root, r)
    requires FrameOf(s.words, s.procs[pid].mem.root, q) == FrameOf(s.words, s.procs[other].mem.root, r)
    ensures id in s.procs[pid].used && id in s.procs[other].used && id in s.shms && FrameOf(s.words, s.procs[pid].mem.root, q) in s.shms[id]
  {
    var own: Owners :| Inv(s, own) && own.Keys == all;
    NoSharedPrivateFrame(s, own, pid, q, other, r);
    id :| id in s.procs[pid].used && id in s.procs[other].used && id in s.shms && FrameOf(s.words, s.procs[pid].mem.root, q) in s.shms[id];
  }

  lemma FramesBacking(objs: Shm.Objects, id: nat)
    requires id in ShmFrames(objs)
    ensures ShmFrames(objs)[id] == Shm.Backing(objs, id)
  {
  }

  /** After the part `p` of the run neither was the object closed for good nor the process created. */
  predicate Since(h: Past, p: Past, pid: nat, id: nat) {
    h == p || (h.Then? && h.event != Closed(id) && !(h.event.Spawned? && h.event.pid == pid) && Since(h.past, p, pid, id))
  }

  /** The last operation of `p` is the process's request to map the object, which exists. */
  predicate Asks(p: Past, pid: nat, id: nat) {
    && p.Then? && p.op.OpAct? && p.op.pid == pid && p.op.act.MmapShared? && p.op.act.id == id
    && pid in p.past.shot.sys.procs && Shm.Live(p.past.shot.objs, id)
  }

  /** The event is the process's mapping of the object. */
  predicate MapsObject(e: Event, pid: nat, id: nat) { e.Worked? && e.pid == pid && e.act.MmapShared? && e.act.id == id }

  lemma AsksEvent(a: Shot, op: Op, e: Event, b: Shot, pid: nat, id: nat)
    requires Step(a, op, e, b)
    ensures MapsObject(e, pid, id) <==> Asks(Then(Boot(a), op, e, b), pid, id)
  {
  }

  /** Requests to map the object and events in which it is mapped are the same. */
  predicate Answered(h: Past, pid: nat, id: nat) {
    h.Then? ==> Answered(h.past, pid, id) && (MapsObject(h.event, pid, id) <==> Asks(h, pid, id))
  }

  lemma {:induction false} RunAnswers(h: Past, all: set<nat>, pid: nat, id: nat)
    requires Ran(h, all)
    ensures Answered(h, pid, id)
  {
    if h.Then? {
      RunAnswers(h.past, all, pid, id);
      AsksEvent(h.past.shot, h.op, h.event, h.shot, pid, id);
    }
  }

  lemma {:induction false} UsedAnswers(h: Past, pid: nat, id: nat)
    requires Answered(h, pid, id)
    ensures id in UsedOf(h, pid) <==> exists p :: Since(h, p, pid, id) && Asks(p, pid, id)
  {
    if h.Then? {
      UsedAnswers(h.past, pid, id);
      if Asks(h, pid, id) {
        assert Since(h, h, pid, id);
      } else if id in UsedOf(h, pid) {
        var p :| Since(h.past, p, pid, id) && Asks(p, pid, id);
        assert Since(h, p, pid, id);
      }
    }
  }

  /** The objects a process counts as mapped are exactly those one of its operations asked to
      map and that are not closed for good since. */
  lemma UsedIs(h: Past, all: set<nat>, pid: nat, id: nat)
    requires Ran(h, all)
    ensures id in UsedOf(h, pid) <==> exists p :: Since(h, p, pid, id) && Asks(p, pid, id)
  {
    RunAnswers(h, all, pid, id);
    UsedAnswers(h, pid, id);
  }

  /** No event after the part `p` of the run is about the process. */
  predicate Idle(h: Past, p: Past, pid: nat) { h == p || (h.Then? && Target(h.event) != Some(pid) && Idle(h.past, p, pid)) }

  /** Isolation over whole runs: whatever the kernel and all other processes do, nothing of a
      process changes between its own operations. */
  lemma {:induction false} RunIsolates(h: Past, p: Past, all: set<nat>, pid: nat)
    requires Ran(h, all) && Idle(h, p, pid) && pid in p.shot.sys.procs
    ensures pid in h.shot.sys.procs && SameWalks(p.shot.sys.words, h.shot.sys.words, p.shot.sys.procs[pid].mem.root)
    ensures h.shot.sys.procs[pid] == p.shot.sys.procs[pid].(used := h.shot.sys.procs[pid].used)
  {
    if h != p {
      RunIsolates(h.past, p, all, pid);
      StepIsolates(h.past.shot, all, h.op, h.event, h.shot);
      assert Untouched(h.past.shot.sys, h.shot.sys, h.event, pid);
    }
  }

  /** Where a process's image and mappings were all placed clear of what was recorded, every
      answer of `translate_local` on a page ring 3 reaches is the byte the page walk leads to. */
  lemma RunTranslates(m: Machine, h: Past, all: set<nat>, pid: nat, a: nat, len: nat, k: nat)
    requires m.Holds(h.shot.sys) && Ran(h, all) && Alive(h, pid) && TidyOf(h, pid) && pid in m.procs
    requires TranslateLocal(m.procs[pid].maps, a, len).Some? && k < len && UserPage(m.pt.words, m.procs[pid].root, (a + k) / 4096)
    ensures TranslateLocal(m.procs[pid].maps, a, len).value + k == 4096 * FrameOf(m.pt.words, m.procs[pid].root, (a + k) / 4096) + (a + k) % 4096
  {
    RunTold(h, all, pid);
    var p := h.shot.sys.procs[pid];
    assert Same(m.procs[pid], p);
    TranslateIsWalk(m.pt.words, p.mem, a, len, k);
  }
}
