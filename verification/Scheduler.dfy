/** The round-robin scheduler (src/task.rs:219-306, 460-489, src/linux_abi.rs:978-989). The
    CPU's CR3, FS base, stack pointer and TSS stack are variables; interrupts are
    atomic steps. */
module Scheduler {
  import opened Wrappers

  datatype Process = Process(fsBase: nat, exited: bool)

  datatype Task = Task(rsp: nat, cr3: nat, stackTop: nat, process: Option<Process>)

  datatype State = State(tasks: seq<Task>, current: nat, rsp: nat, cr3: nat, fsBase: nat, rsp0: int, ticks: nat)

  const QUANTUM_TICKS: nat := 5
  const RING3_PARK_RESERVE: int := 1024

  predicate Exited(t: Task) { t.process.Some? && t.process.value.exited }

  predicate Wf(s: State) { s.current < |s.tasks| }

  // ---- choosing the next task --------------------------------------------------------------

  /** The task `step` places after `current`, around the table. */
  function Ahead(current: nat, step: nat, count: nat): (r: nat)
    requires current < count && step < count
    ensures r < count && r == (current + step) % count
  {
    if current + step < count then current + step else current + step - count
  }

  /** `next` is the nearest task after `current` that has not exited. */
  ghost predicate Nearest(tasks: seq<Task>, current: nat, next: nat) {
    && current < |tasks| && next < |tasks|
    && exists step: nat :: Picks(tasks, current, step, next)
  }

  ghost predicate Picks(tasks: seq<Task>, current: nat, step: nat, next: nat)
    requires current < |tasks|
  {
    && 1 <= step < |tasks| && next == Ahead(current, step, |tasks|) && !Exited(tasks[next])
    && forall k: nat :: 1 <= k < step ==> Exited(tasks[Ahead(current, k, |tasks|)])
  }

  /** The scheduler's choice from `step` on. */
  function Choose(tasks: seq<Task>, current: nat, step: nat): (r: Option<nat>)
    requires current < |tasks| && 1 <= step
    decreases |tasks| - step
  {
    if step >= |tasks| then None
    else if !Exited(tasks[Ahead(current, step, |tasks|)]) then Some(Ahead(current, step, |tasks|))
    else Choose(tasks, current, step + 1)
  }

  lemma {:induction false} ChooseIs(tasks: seq<Task>, current: nat, step: nat)
    requires current < |tasks| && 1 <= step && forall k: nat :: 1 <= k < step && k < |tasks| ==> Exited(tasks[Ahead(current, k, |tasks|)])
    ensures Choose(tasks, current, step).Some? ==> Nearest(tasks, current, Choose(tasks, current, step).value)
    ensures Choose(tasks, current, step).None? ==> forall k: nat :: 1 <= k < |tasks| ==> Exited(tasks[Ahead(current, k, |tasks|)])
    decreases |tasks| - step
  {
    if step < |tasks| {
      if Exited(tasks[Ahead(current, step, |tasks|)]) {
        ChooseIs(tasks, current, step + 1);
      } else {
        assert Picks(tasks, current, step, Ahead(current, step, |tasks|));
      }
    }
  }

  /** How many places `t` is after `current`. */
  function Distance(current: nat, t: nat, count: nat): (d: nat)
    requires current < count && t < count
    ensures d < count && Ahead(current, d, count) == t && (d == 0 <==> t == current)
  {
    if t >= current then t - current else t + count - current
  }

  /** A runnable task comes nearer with every switch, until it is the current one. */
  lemma SwitchNears(tasks: seq<Task>, current: nat, next: nat, t: nat)
    requires Nearest(tasks, current, next) && t < |tasks| && !Exited(tasks[t]) && t != current
    ensures Distance(next, t, |tasks|) < Distance(current, t, |tasks|)
  {
    var step: nat :| Picks(tasks, current, step, next);
    var d := Distance(current, t, |tasks|);
    assert Ahead(current, d, |tasks|) == t;
    assert step <= d;
  }

  // ---- the steps ---------------------------------------------------------------------------

  function SaveFs(t: Task, fs: nat): Task {
    if t.process.Some? then t.(process := Some(t.process.value.(fsBase := fs))) else t
  }

  /** The task table with the outgoing task's registers saved. */
  function Suspended(s: State): seq<Task>
    requires Wf(s)
  {
    s.tasks[s.current := SaveFs(s.tasks[s.current], s.fsBase).(rsp := s.rsp)]
  }

  function SwitchTo(s: State, next: nat): State
    requires Wf(s) && next < |s.tasks|
  {
    var t := s.tasks[next];
    s.(tasks := Suspended(s), current := next, rsp := t.rsp, cr3 := t.cr3,
       fsBase := if t.process.Some? then t.process.value.fsBase else s.fsBase, rsp0 := t.stackTop - RING3_PARK_RESERVE)
  }

  /** `scheduler_tick`. */
  function Tick(s: State): State
    requires Wf(s)
  {
    if s.ticks % QUANTUM_TICKS != 0 || |s.tasks| < 2 || Choose(s.tasks, s.current, 1).None? then s
    else SwitchTo(s, Chosen(s))
  }

  function Chosen(s: State): (r: nat)
    requires Wf(s) && Choose(s.tasks, s.current, 1).Some?
    ensures r < |s.tasks| && r != s.current && Nearest(s.tasks, s.current, r)
  {
    ChooseIs(s.tasks, s.current, 1);
    Choose(s.tasks, s.current, 1).value
  }

  function MarkExited(s: State): State
    requires Wf(s)
  {
    var t := s.tasks[s.current];
    if t.process.Some? then s.(tasks := s.tasks[s.current := t.(process := Some(t.process.value.(exited := true)))]) else s
  }

  /** `arch_prctl(ARCH_SET_FS)` by the current process. */
  function SetFs(s: State, addr: nat): State
    requires Wf(s)
  {
    s.(fsBase := addr, tasks := s.tasks[s.current := SaveFs(s.tasks[s.current], addr)])
  }

  /** `Vec::swap_remove`. */
  function SwapRemove<T>(a: seq<T>, i: nat): (r: seq<T>)
    requires i < |a|
    ensures |r| == |a| - 1
  {
    if i == |a| - 1 then a[..i] else a[i := a[|a| - 1]][..|a| - 1]
  }

  /** The index the code stores for the current task after removing `pid`. */
  function CurrentAfter(current: nat, pid: nat, count: nat): nat
    requires count > 0
  {
    if current == count - 1 then pid else if pid < current then current - 1 else current
  }

  function Remove(s: State, pid: nat): State
    requires Wf(s)
  {
    if pid >= |s.tasks| || pid == s.current then s
    else s.(tasks := SwapRemove(s.tasks, pid), current := CurrentAfter(s.current, pid, |s.tasks|))
  }

  datatype Event = Timer | Work(rsp: nat) | Exit | ArchPrctl(addr: nat) | Push(task: Task) | Reap(pid: nat)

  function Step(s: State, e: Event): (r: State)
    requires Wf(s)
    ensures Wf(r)
  {
    match e
    case Timer => Tick(s.(ticks := s.ticks + 1))
    case Work(rsp) => s.(rsp := rsp)
    case Exit => MarkExited(s)
    case ArchPrctl(addr) => SetFs(s, addr)
    case Push(task) => s.(tasks := s.tasks + [task])
    case Reap(pid) => Remove(s, pid)
  }

  ghost function Run(s: State, es: seq<Event>): (r: State)
    requires Wf(s)
    ensures Wf(r)
    decreases |es|
  {
    if es == [] then s else Run(Step(s, es[0]), es[1..])
  }

  // ---- removing a process ---------------------------------------------------------------------

  /** After a removal the stored index denotes the running task exactly when that task
      was the last one or stood before the removed one. */
  lemma RemoveKeepsCurrent(ids: seq<nat>, current: nat, pid: nat)
    requires current < |ids| && pid < |ids| && pid != current && forall i, j :: 0 <= i < j < |ids| ==> ids[i] != ids[j]
    ensures CurrentAfter(current, pid, |ids|) < |SwapRemove(ids, pid)|
    ensures SwapRemove(ids, pid)[CurrentAfter(current, pid, |ids|)] == ids[current] <==> current < pid || current == |ids| - 1
  {
  }

  /** With four tasks and the third one running, removing the second leaves the index on
      the task that was moved there. */
  lemma RemoveMisplaces()
    ensures SwapRemove([10, 11, 12, 13], 1)[CurrentAfter(2, 1, 4)] == 13
  {
    var a: seq<nat> := [10, 11, 12, 13];
    assert a[1 := a[3]][..3] == [10, 13, 12];
  }

  // ---- CR3 and FS base ----------------------------------------------------------------------------

  /** The running task's address space is loaded; every process has the FS base `tls` it
      last set, in the register while it runs and in its record otherwise. */
  ghost predicate Registers(s: State, tls: seq<nat>) {
    && Wf(s) && |tls| == |s.tasks| && s.cr3 == s.tasks[s.current].cr3
    && forall i: nat :: i < |s.tasks| && s.tasks[i].process.Some? ==>
         tls[i] == if i == s.current then s.fsBase else s.tasks[i].process.value.fsBase
  }

  /** What the processes last set, after an event. */
  function TlsAfter(s: State, tls: seq<nat>, e: Event): seq<nat>
    requires Wf(s) && |tls| == |s.tasks|
  {
    match e
    case ArchPrctl(addr) => tls[s.current := addr]
    case Push(task) => tls + [if task.process.Some? then task.process.value.fsBase else 0]
    case Reap(pid) => if pid >= |s.tasks| || pid == s.current then tls else SwapRemove(tls, pid)
    case _ => tls
  }

  /** The removals that leave the running task in place. */
  predicate SafeReap(s: State, e: Event) { e.Reap? ==> s.current <= e.pid || s.current == |s.tasks| - 1 }

  /** Every event keeps the registers right; a removal does when it is a safe one. */
  lemma StepKeeps(s: State, tls: seq<nat>, e: Event)
    requires Registers(s, tls) && SafeReap(s, e)
    ensures |tls| == |s.tasks| && Registers(Step(s, e), TlsAfter(s, tls, e))
  {
    match e
    case Timer => TickKeeps(s.(ticks := s.ticks + 1), tls);
    case Reap(pid) => ReapKeeps(s, tls, pid);
    case _ =>
  }

  lemma TickKeeps(s: State, tls: seq<nat>)
    requires Registers(s, tls)
    ensures Registers(Tick(s), tls)
  {
    var r := Tick(s);
    if r != s {
      var next := Chosen(s);
      assert forall i: nat :: i < |s.tasks| && i != s.current ==> r.tasks[i] == s.tasks[i];
    }
  }

  lemma ReapKeeps(s: State, tls: seq<nat>, pid: nat)
    requires Registers(s, tls) && SafeReap(s, Reap(pid))
    ensures Registers(Remove(s, pid), TlsAfter(s, tls, Reap(pid)))
  {
    if pid < |s.tasks| && pid != s.current {
      var r, last := Remove(s, pid), |s.tasks| - 1;
      forall i: nat | i < |r.tasks| ensures r.tasks[i] == s.tasks[if i == pid then last else i]
                                            && SwapRemove(tls, pid)[i] == tls[if i == pid then last else i] {
      }
    }
  }

  ghost predicate SafeRun(s: State, es: seq<Event>)
    requires Wf(s)
    decreases |es|
  {
    es == [] || (SafeReap(s, es[0]) && SafeRun(Step(s, es[0]), es[1..]))
  }

  ghost function TlsRun(s: State, tls: seq<nat>, es: seq<Event>): seq<nat>
    requires Registers(s, tls) && SafeRun(s, es)
    decreases |es|
  {
    StepKeepsAll();
    if es == [] then tls else TlsRun(Step(s, es[0]), TlsAfter(s, tls, es[0]), es[1..])
  }

  lemma StepKeepsAll()
    ensures forall s: State, tls: seq<nat>, e: Event {:trigger Step(s, e), TlsAfter(s, tls, e)} ::
              Registers(s, tls) && SafeReap(s, e) ==> Registers(Step(s, e), TlsAfter(s, tls, e))
  {
    forall s: State, tls: seq<nat>, e: Event | Registers(s, tls) && SafeReap(s, e) ensures Registers(Step(s, e), TlsAfter(s, tls, e)) {
      StepKeeps(s, tls, e);
    }
  }

  /** Under any interleaving CR3 is the current task's and the FS base is the value its
      process last set. */
  lemma {:induction false} RunKeeps(s: State, tls: seq<nat>, es: seq<Event>)
    requires Registers(s, tls) && SafeRun(s, es)
    ensures Registers(Run(s, es), TlsRun(s, tls, es))
    decreases |es|
  {
    if es != [] {
      StepKeeps(s, tls, es[0]);
      RunKeeps(Step(s, es[0]), TlsAfter(s, tls, es[0]), es[1..]);
    }
  }

  // ---- fairness ---------------------------------------------------------------------------------------

  /** The table's size and order stay. */
  predicate Fixed(es: seq<Event>) { forall i :: 0 <= i < |es| ==> !es[i].Push? && !es[i].Reap? }

  /** The timer interrupts in `es` at which the scheduler acts. */
  function Quanta(ticks: nat, es: seq<Event>): nat
    decreases |es|
  {
    if es == [] then 0
    else if es[0].Timer? then (if (ticks + 1) % QUANTUM_TICKS == 0 then 1 else 0) + Quanta(ticks + 1, es[1..])
    else Quanta(ticks, es[1..])
  }

  predicate Acts(s: State, e: Event) { e.Timer? && (s.ticks + 1) % QUANTUM_TICKS == 0 }

  /** One event while `t` waits: it stays runnable, and is nearer after a quantum. */
  lemma WaitStep(s: State, e: Event, t: nat)
    requires Wf(s) && t < |s.tasks| && t != s.current && !Exited(s.tasks[t]) && !e.Push? && !e.Reap?
    ensures var r := Step(s, e);
            && |r.tasks| == |s.tasks| && !Exited(r.tasks[t]) && r.ticks == s.ticks + (if e.Timer? then 1 else 0)
            && Distance(r.current, t, |s.tasks|) <= Distance(s.current, t, |s.tasks|) - (if Acts(s, e) then 1 else 0)
  {
    if Acts(s, e) {
      var s1 := s.(ticks := s.ticks + 1);
      var d := Distance(s.current, t, |s.tasks|);
      ChooseIs(s.tasks, s.current, 1);
      assert !Exited(s.tasks[Ahead(s.current, d, |s.tasks|)]);
      assert Choose(s.tasks, s.current, 1).Some?;
      SwitchNears(s.tasks, s.current, Chosen(s1), t);
    }
  }

  /** A runnable task is resumed within as many quanta as it is places away, at most
      one less than there are tasks. */
  lemma {:induction false} Fair(s: State, es: seq<Event>, t: nat) returns (k: nat)
    requires Wf(s) && t < |s.tasks| && !Exited(s.tasks[t]) && Fixed(es)
    requires Quanta(s.ticks, es) >= Distance(s.current, t, |s.tasks|)
    ensures k <= |es| && Run(s, es[..k]).current == t
    ensures Quanta(s.ticks, es[..k]) <= Distance(s.current, t, |s.tasks|) <= |s.tasks| - 1
    decreases |es|
  {
    if t == s.current {
      k := 0;
      assert es[..0] == [];
    } else {
      var r := Step(s, es[0]);
      WaitStep(s, es[0], t);
      k := Fair(r, es[1..], t);
      k := k + 1;
      assert es[..k][0] == es[0] && es[..k][1..] == es[1..][..k - 1];
    }
  }

  /** Where an event moves task `i`: a removal puts the last task into the freed place. */
  function MovesTo(s: State, e: Event, i: nat): Option<nat>
    requires Wf(s) && i < |s.tasks|
  {
    if e.Reap? && e.pid < |s.tasks| && e.pid != s.current then
      if i == e.pid then None else if i == |s.tasks| - 1 then Some(e.pid) else Some(i)
    else Some(i)
  }

  lemma ExitedStep(s: State, e: Event, i: nat)
    requires Wf(s) && i < |s.tasks| && Exited(s.tasks[i]) && i != s.current && SafeReap(s, e)
    ensures var r, p := Step(s, e), MovesTo(s, e, i);
            p.Some? ==> p.value < |r.tasks| && Exited(r.tasks[p.value]) && p.value != r.current && r.tasks[p.value].cr3 == s.tasks[i].cr3
  {
    if e.Timer? && Tick(s.(ticks := s.ticks + 1)) != s.(ticks := s.ticks + 1) {
      assert !Exited(s.tasks[Chosen(s.(ticks := s.ticks + 1))]);
    }
  }

  /** Where task `i` is after a run, if it was not reaped. */
  ghost function Follow(s: State, es: seq<Event>, i: nat): Option<nat>
    requires Wf(s) && i < |s.tasks|
    decreases |es|
  {
    if es == [] then Some(i)
    else
      var p := MovesTo(s, es[0], i);
      if p.None? || p.value >= |Step(s, es[0]).tasks| then None else Follow(Step(s, es[0]), es[1..], p.value)
  }

  /** A process that has exited is never current again, while tasks come and are reaped. */
  lemma {:induction false} ExitedNeverRuns(s: State, es: seq<Event>, i: nat)
    requires Wf(s) && i < |s.tasks| && Exited(s.tasks[i]) && i != s.current && SafeRun(s, es)
    ensures var r, p := Run(s, es), Follow(s, es, i);
            p.Some? ==> p.value < |r.tasks| && Exited(r.tasks[p.value]) && r.tasks[p.value].cr3 == s.tasks[i].cr3 && r.current != p.value
    decreases |es|
  {
    if es != [] {
      ExitedStep(s, es[0], i);
      var p := MovesTo(s, es[0], i);
      if p.Some? {
        ExitedNeverRuns(Step(s, es[0]), es[1..], p.value);
      }
    }
  }

  // ---- the scheduler's variables ------------------------------------------------------------------------

  class Scheduler {
    var tasks: seq<Task>
    var current: nat
    var rsp: nat
    var cr3: nat
    var fsBase: nat
    var rsp0: int
    var ticks: nat

    /** Boot: the main task alone, on the kernel's page table. */
    constructor (kernelPml4: nat, stackTop: nat)
      ensures Snapshot() == State([Task(0, kernelPml4, stackTop, None)], 0, 0, kernelPml4, 0, 0, 0)
      ensures Registers(Snapshot(), [0])
    {
      tasks, current := [Task(0, kernelPml4, stackTop, None)], 0;
      rsp, cr3, fsBase, rsp0, ticks := 0, kernelPml4, 0, 0, 0;
    }

    function Snapshot(): State
      reads this
    {
      State(tasks, current, rsp, cr3, fsBase, rsp0, ticks)
    }

    /** The search loop of `scheduler_tick`. */
    method FindNext() returns (next: Option<nat>)
      requires current < |tasks|
      ensures next == Choose(tasks, current, 1)
    {
      var step: nat := 1;
      while step < |tasks|
        invariant 1 <= step && Choose(tasks, current, step) == Choose(tasks, current, 1)
      {
        var candidate := (current + step) % |tasks|;
        assert candidate == Ahead(current, step, |tasks|);
        if !Exited(tasks[candidate]) {
          return Some(candidate);
        }
        step := step + 1;
      }
      next := None;
    }

    method SchedulerTick()
      requires current < |tasks|
      modifies this
      ensures Snapshot() == Tick(old(Snapshot()))
    {
      if ticks % QUANTUM_TICKS != 0 || |tasks| < 2 {
        return;
      }
      ghost var s := Snapshot();
      var chosen := FindNext();
      if chosen.None? {
        return;
      }
      assert chosen.value == Chosen(s);
      var next := chosen.value;
      if tasks[current].process.Some? {
        tasks := tasks[current := tasks[current].(process := Some(tasks[current].process.value.(fsBase := fsBase)))];
      }
      var previous := current;
      current := next;
      if tasks[next].process.Some? {
        fsBase := tasks[next].process.value.fsBase;
      }
      if cr3 != tasks[next].cr3 {
        cr3 := tasks[next].cr3;
      }
      rsp0 := tasks[next].stackTop - RING3_PARK_RESERVE;
      var newRsp := tasks[next].rsp;
      tasks := tasks[previous := tasks[previous].(rsp := rsp)];
      rsp := newRsp;
    }

    method PushTask(t: Task) returns (pid: nat)
      requires current < |tasks|
      modifies this
      ensures Snapshot() == Step(old(Snapshot()), Push(t)) && pid == |old(tasks)| && tasks[pid] == t
    {
      tasks := tasks + [t];
      pid := |tasks| - 1;
    }

    method MarkCurrentExited()
      requires current < |tasks|
      modifies this
      ensures Snapshot() == Step(old(Snapshot()), Exit)
    {
      var t := tasks[current];
      if t.process.Some? {
        tasks := tasks[current := t.(process := Some(t.process.value.(exited := true)))];
      }
    }

    method SetFsBase(addr: nat)
      requires current < |tasks|
      modifies this
      ensures Snapshot() == Step(old(Snapshot()), ArchPrctl(addr))
    {
      fsBase := addr;
      var t := tasks[current];
      if t.process.Some? {
        tasks := tasks[current := t.(process := Some(t.process.value.(fsBase := addr)))];
      }
    }

    /** Refuses the running task. */
    method RemoveProcess(pid: nat) returns (removed: Option<Process>)
      requires current < |tasks|
      modifies this
      ensures Snapshot() == Step(old(Snapshot()), Reap(pid))
      ensures removed == if pid < |old(tasks)| && pid != old(current) then old(tasks)[pid].process else None
    {
      if pid >= |tasks| || pid == current {
        return None;
      }
      removed := tasks[pid].process;
      tasks := SwapRemove(tasks, pid);
      if current == |tasks| {
        current := pid;
      } else if pid < current {
        current := current - 1;
      }
    }
  }
}
