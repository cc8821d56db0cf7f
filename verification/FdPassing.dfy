/** Descriptors and the references they hold (src/linux_abi.rs:374-387, 465, 726-971,
    src/process.rs:118-140, 257-285): descriptor tables of all processes, messages in
    flight and kernel receivers, over one table of shared-memory objects. User buffers
    are values here; a pointer that does not resolve is passed as None. */
module FdPassing {
  import opened Wrappers
  import opened Pmm
  import opened Shm
  import opened Sockets

  datatype FdEntry = File | ShmFd(shm: nat) | SocketFd(socket: nat)

  type Table = seq<Option<FdEntry>>

  const FIRST_FILE_FD: nat := 3

  function RefOf(e: Option<FdEntry>): multiset<nat> { if e.Some? && e.value.ShmFd? then multiset{e.value.shm} else multiset{} }

  /** The references held by one table. */
  function TableRefs(t: Table): multiset<nat> {
    if t == [] then multiset{} else TableRefs(t[..|t| - 1]) + RefOf(t[|t| - 1])
  }

  /** The references held by all tables. */
  function ProcRefs(ps: seq<Table>): multiset<nat> {
    if ps == [] then multiset{} else ProcRefs(ps[..|ps| - 1]) + TableRefs(ps[|ps| - 1])
  }

  lemma TableSnoc(t: Table, n: nat, k: nat)
    requires |t| == n + 1
    ensures TableRefs(t)[k] == TableRefs(t[..n])[k] + RefOf(t[n])[k]
  {
  }

  lemma {:induction false} TableAt(t: Table, i: nat, e: Option<FdEntry>, k: nat)
    requires i < |t|
    ensures TableRefs(t[i := e])[k] + RefOf(t[i])[k] == TableRefs(t)[k] + RefOf(e)[k]
    decreases |t|
  {
    var n := |t| - 1;
    var t2 := t[i := e];
    TableSnoc(t, n, k);
    TableSnoc(t2, n, k);
    if i == n {
      assert t2[..n] == t[..n];
    } else {
      TableAt(t[..n], i, e, k);
      assert t2[..n] == t[..n][i := e];
    }
  }

  lemma ProcSnoc(ps: seq<Table>, n: nat, k: nat)
    requires |ps| == n + 1
    ensures ProcRefs(ps)[k] == ProcRefs(ps[..n])[k] + TableRefs(ps[n])[k]
  {
  }

  lemma {:induction false} ProcAt(ps: seq<Table>, p: nat, t: Table, k: nat)
    requires p < |ps|
    ensures ProcRefs(ps[p := t])[k] + TableRefs(ps[p])[k] == ProcRefs(ps)[k] + TableRefs(t)[k]
    decreases |ps|
  {
    var n := |ps| - 1;
    var ps2, front := ps[p := t], ps[..n];
    ProcSnoc(ps, n, k);
    ProcSnoc(ps2, n, k);
    if p == n {
      assert ps2[..n] == front;
    } else {
      ProcAt(front, p, t, k);
      assert ps2[..n] == front[p := t];
    }
  }

  lemma TablePush(t: Table, e: Option<FdEntry>)
    ensures TableRefs(t + [e]) == TableRefs(t) + RefOf(e)
  {
    assert (t + [e])[..|t|] == t;
  }

  /** Every object's count is the number of references to it: open descriptors, queued
      messages, kernel receivers, and those `hand` a call is just moving. */
  ghost predicate Balance(objs: Objects, ps: seq<Table>, eps: Endpoints, held: seq<nat>, hand: multiset<nat>) {
    forall id: nat :: RefCount(objs, id) == ProcRefs(ps)[id] + InFlight(eps)[id] + multiset(held)[id] + hand[id]
  }

  /** An open descriptor's object is referenced. */
  lemma OpenFdCounted(ps: seq<Table>, p: nat, i: nat)
    requires p < |ps| && i < |ps[p]|
    ensures RefOf(ps[p][i]) <= TableRefs(ps[p]) <= ProcRefs(ps)
  {
    forall k: nat ensures RefOf(ps[p][i])[k] <= TableRefs(ps[p])[k] <= ProcRefs(ps)[k] {
      TableAt(ps[p], i, None, k);
      ProcAt(ps, p, [], k);
    }
  }

  /** Putting an entry into a free slot or at the end of a table. */
  function Put(t: Table, i: nat, e: FdEntry): Table
    requires i <= |t|
  {
    if i < |t| then t[i := Some(e)] else t + [Some(e)]
  }

  lemma PutBalance(objs: Objects, ps: seq<Table>, eps: Endpoints, held: seq<nat>, hand: multiset<nat>, p: nat, i: nat, e: FdEntry)
    requires p < |ps| && i <= |ps[p]| && (i < |ps[p]| ==> ps[p][i].None?)
    requires Balance(objs, ps, eps, held, hand + RefOf(Some(e)))
    ensures Balance(objs, ps[p := Put(ps[p], i, e)], eps, held, hand)
  {
    var t2 := Put(ps[p], i, e);
    forall k: nat ensures ProcRefs(ps[p := t2])[k] == ProcRefs(ps)[k] + RefOf(Some(e))[k] {
      ProcAt(ps, p, t2, k);
      if i < |ps[p]| {
        TableAt(ps[p], i, Some(e), k);
      } else {
        TablePush(ps[p], Some(e));
      }
    }
  }

  lemma ClearBalance(objs: Objects, ps: seq<Table>, eps: Endpoints, held: seq<nat>, hand: multiset<nat>, p: nat, i: nat)
    requires p < |ps| && i < |ps[p]| && Balance(objs, ps, eps, held, hand)
    ensures Balance(objs, ps[p := ps[p][i := None]], eps, held, hand + RefOf(ps[p][i]))
  {
    var t2 := ps[p][i := None];
    forall k: nat ensures ProcRefs(ps[p := t2])[k] + RefOf(ps[p][i])[k] == ProcRefs(ps)[k] {
      ProcAt(ps, p, t2, k);
      TableAt(ps[p], i, None, k);
    }
  }

  lemma NewTable(ps: seq<Table>)
    ensures ProcRefs(ps + [[None, None, None]]) == ProcRefs(ps)
  {
    var t: Table := [None, None, None];
    assert t == [None] + [None] + [None];
    TablePush([], None);
    TablePush([None], None);
    TablePush([None] + [None], None);
    assert (ps + [t])[..|ps|] == ps;
  }

  lemma CreateBalance(objs: Objects, objs2: Objects, ps: seq<Table>, eps: Endpoints, held: seq<nat>, id: nat)
    requires Balance(objs, ps, eps, held, multiset{}) && id <= |objs| && !Live(objs, id) && id < |objs2| && objs2[id].Some? && objs2[id].value.refcount == 1
    requires objs2 == if id < |objs| then objs[id := objs2[id]] else objs + [objs2[id]]
    ensures RefCount(objs2, id) == 1 && Balance(objs2, ps, eps, held, multiset{} + RefOf(Some(ShmFd(id))))
    ensures forall k: nat :: k != id ==> RefCount(objs2, k) == RefCount(objs, k)
  {
    var one := RefOf(Some(ShmFd(id)));
    assert one == multiset{id};
    forall k: nat ensures RefCount(objs2, k) == RefCount(objs, k) + (multiset{} + one)[k] {
      assert k != id ==> Live(objs2, k) == Live(objs, k) && (Live(objs, k) ==> objs2[k] == objs[k]);
    }
  }

  lemma DropBalance(objs: Objects, ps: seq<Table>, eps: Endpoints, held: seq<nat>, hand: multiset<nat>, id: nat)
    requires Balance(objs, ps, eps, held, hand + multiset{id})
    ensures Balance(Dropped(objs, id), ps, eps, held, hand)
  {
  }

  lemma DropAllBalance(objs: Objects, ps: seq<Table>, eps: Endpoints, held: seq<nat>, hand: multiset<nat>, ids: seq<nat>)
    requires Balance(objs, ps, eps, held, hand + multiset(ids))
    ensures Balance(DroppedAll(objs, ids), ps, eps, held, hand)
  {
    forall k: nat ensures RefCount(DroppedAll(objs, ids), k) == RefCount(objs, k) - multiset(ids)[k] {
      DroppedCount(objs, ids, k);
    }
  }

  /** In every balanced state an object is live exactly while something refers to it,
      and then none of its frames is free. */
  lemma ReferencedIsLive(objs: Objects, free: set<nat>, ps: seq<Table>, eps: Endpoints, held: seq<nat>, id: nat)
    requires Sound(objs, free) && Balance(objs, ps, eps, held, multiset{})
    ensures Live(objs, id) <==> id in ProcRefs(ps) || id in InFlight(eps) || id in held
    ensures id in ProcRefs(ps) || id in InFlight(eps) || id in held ==> Backing(objs, id) !! free
  {
    assert id in multiset(held) <==> id in held;
  }

  datatype Reply = Done(count: nat, bytes: seq<bv8>, fds: seq<nat>) | BadFd | Pipe | Again

  /** The reply holds what was waiting, up to `cap` bytes, and the endpoint is drained. */
  ghost predicate Received(eps: Endpoints, eps2: Endpoints, s: nat, cap: nat, r: Reply) {
    r.Done? && r.bytes == Available(eps, s, cap) && r.count == |r.bytes| && eps2 == Drained(eps, s, cap)
  }

  /** The objects behind those of `fds` that are shared memory. */
  function ShmIds(t: Table, fds: seq<nat>): seq<nat>
    decreases |fds|
  {
    if fds == [] then []
    else
      var front, fd := ShmIds(t, fds[..|fds| - 1]), fds[|fds| - 1];
      if fd < |t| && t[fd].Some? && t[fd].value.ShmFd? then front + [t[fd].value.shm] else front
  }

  lemma {:induction false} ShmIdsCounted(ps: seq<Table>, p: nat, fds: seq<nat>)
    requires p < |ps|
    ensures forall i :: 0 <= i < |ShmIds(ps[p], fds)| ==> ShmIds(ps[p], fds)[i] in ProcRefs(ps)
    decreases |fds|
  {
    if fds != [] {
      var fd := fds[|fds| - 1];
      ShmIdsCounted(ps, p, fds[..|fds| - 1]);
      if fd < |ps[p]| && ps[p][fd].Some? && ps[p][fd].value.ShmFd? {
        OpenFdCounted(ps, p, fd);
        assert ps[p][fd].value.shm in RefOf(ps[p][fd]);
      }
    }
  }

  lemma SendBalance(objs: Objects, ps: seq<Table>, eps: Endpoints, eps2: Endpoints, held: seq<nat>, ids: seq<nat>)
    requires Balance(objs, ps, eps, held, multiset{}) && InFlight(eps2) == InFlight(eps) + multiset(ids)
    requires forall i :: 0 <= i < |ids| ==> RefCount(objs, ids[i]) > 0
    ensures Balance(TakenAll(objs, ids), ps, eps2, held, multiset{})
  {
    forall k: nat ensures RefCount(TakenAll(objs, ids), k) == RefCount(objs, k) + multiset(ids)[k] {
      if Live(objs, k) {
        TakenCount(objs, ids, k);
      } else {
        assert k !in multiset(ids);
      }
    }
  }

  lemma RecvBalance(objs: Objects, ps: seq<Table>, eps: Endpoints, eps2: Endpoints, held: seq<nat>, ids: seq<nat>)
    requires Balance(objs, ps, eps, held, multiset{}) && InFlight(eps2) + multiset(ids) == InFlight(eps)
    ensures Balance(objs, ps, eps2, held, multiset(ids))
  {
    forall k: nat ensures InFlight(eps2)[k] + multiset(ids)[k] == InFlight(eps)[k] {
      assert (InFlight(eps2) + multiset(ids))[k] == InFlight(eps)[k];
    }
  }

  lemma HoldBalance(objs: Objects, ps: seq<Table>, eps: Endpoints, held: seq<nat>, ids: seq<nat>)
    requires Balance(objs, ps, eps, held, multiset(ids))
    ensures Balance(objs, ps, eps, held + ids, multiset{})
  {
    forall k: nat ensures multiset(held + ids)[k] == multiset(held)[k] + multiset(ids)[k] {
    }
  }

  /** A kernel task's reference `held[i]` is taken back into the hand. */
  lemma ReleaseBalance(objs: Objects, ps: seq<Table>, eps: Endpoints, held: seq<nat>, rest: seq<nat>, i: nat)
    requires Balance(objs, ps, eps, held, multiset{}) && i < |held| && rest == held[..i] + held[i + 1..]
    ensures Balance(objs, ps, eps, rest, multiset{} + multiset{held[i]}) && RefCount(objs, held[i]) > 0
  {
    assert held == held[..i] + [held[i]] + held[i + 1..];
    forall k: nat ensures multiset(held)[k] == multiset(rest)[k] + multiset{held[i]}[k] {
    }
  }

  /** The descriptors `fds` refer to the first objects of `ids`. */
  ghost predicate Opened(t: Table, ids: seq<nat>, fds: seq<nat>) {
    |fds| <= |ids| && forall i :: 0 <= i < |fds| ==> fds[i] < |t| && t[fds[i]] == Some(ShmFd(ids[i]))
  }

  /** Bytes and references were put behind what the peer of socket `s` has queued. */
  ghost predicate Delivered(eps: Endpoints, eps2: Endpoints, s: nat, bytes: seq<bv8>, ids: seq<nat>) {
    && Open(eps, s) && eps[s].value.role.Connected? && Open(eps, eps[s].value.role.peer)
    && (var peer := eps[s].value.role.peer;
        var was := eps[peer].value;
        eps2 == eps[peer := Some(was.(inbox := was.inbox + bytes, fds := was.fds + ids))])
  }

  /** Descriptors `fds` of process `p`, which were not open, are open now; every other
      descriptor of it and every other process's table is as it was. */
  ghost predicate OnlyOpened(ps: seq<Table>, ps2: seq<Table>, p: nat, fds: seq<nat>)
    requires p < |ps| && |ps2| == |ps|
  {
    && (forall q :: 0 <= q < |ps| && q != p ==> ps2[q] == ps[q])
    && |ps2[p]| >= |ps[p]| && (forall i: nat :: i in fds ==> i < |ps2[p]| && (i < |ps[p]| ==> ps[p][i].None?))
    && (forall i: nat :: i < |ps2[p]| && i !in fds ==> ps2[p][i] == if i < |ps[p]| then ps[p][i] else None)
  }

  lemma OnlyOpenedStep(ps: seq<Table>, ps2: seq<Table>, p: nat, fds: seq<nat>, fd: nat, e: FdEntry)
    requires p < |ps| && |ps2| == |ps| && OnlyOpened(ps, ps2, p, fds) && fd <= |ps2[p]| && (fd < |ps2[p]| ==> ps2[p][fd].None?)
    requires fd !in fds
    ensures OnlyOpened(ps, ps2[p := Put(ps2[p], fd, e)], p, fds + [fd])
  {
  }

  lemma OpenedStep(t: Table, ids: seq<nat>, fds: seq<nat>, k: nat, fd: nat)
    requires Opened(t, ids, fds) && k == |fds| < |ids| && fd <= |t| && (fd < |t| ==> t[fd].None?)
    ensures Opened(Put(t, fd, ShmFd(ids[k])), ids, fds + [fd])
  {
  }

  lemma HeadHand(ids: seq<nat>, k: nat, k2: nat)
    requires k < |ids| && k2 == k + 1
    ensures multiset(ids[k..]) == multiset(ids[k2..]) + RefOf(Some(ShmFd(ids[k])))
  {
    assert ids[k..] == [ids[k]] + ids[k2..];
  }

  /** The calls that move descriptors. Each keeps the balance and loses no frame. */
  class Kernel {
    const sockets: SocketTable
    const shm: ShmTable
    var procs: seq<Table>
    // Ids received by kernel tasks and not yet closed by them.
    var held: seq<nat>

    constructor (table: SocketTable)
      requires table.shm.Valid() && table.shm.objs == [] && table.eps == []
      ensures sockets == table && Valid() && procs == [] && held == []
    {
      sockets, shm, procs, held := table, table.shm, [], [];
    }

    ghost predicate Balanced(hand: multiset<nat>)
      reads this, sockets, shm, shm.pmm, shm.pmm.bits
    {
      && sockets.shm == shm && shm.Valid() && Balance(shm.objs, procs, sockets.eps, held, hand)
      && forall q :: 0 <= q < |procs| ==> |procs[q]| >= FIRST_FILE_FD
    }

    ghost predicate Valid()
      reads this, sockets, shm, shm.pmm, shm.pmm.bits
    {
      Balanced(multiset{})
    }

    /** A process starts with nothing open. */
    method NewProcess() returns (p: nat)
      requires Valid()
      modifies this
      ensures Valid() && p == |old(procs)| && procs == old(procs) + [[None, None, None]]
    {
      p := |procs|;
      NewTable(procs);
      procs := procs + [[None, None, None]];
    }

    /** The lowest free descriptor from 3 on. */
    method AllocFd(p: nat, e: FdEntry, ghost hand: multiset<nat>) returns (fd: nat)
      requires Balanced(hand + RefOf(Some(e))) && p < |procs|
      modifies `procs
      ensures Balanced(hand)
      ensures FIRST_FILE_FD <= fd <= |old(procs)[p]| && (fd < |old(procs)[p]| ==> old(procs)[p][fd].None?)
      ensures forall i :: FIRST_FILE_FD <= i < fd ==> old(procs)[p][i].Some?
      ensures procs == old(procs)[p := Put(old(procs)[p], fd, e)]
    {
      var t := procs[p];
      fd := FIRST_FILE_FD;
      while fd < |t| && t[fd].Some?
        invariant FIRST_FILE_FD <= fd <= |t| && forall i :: FIRST_FILE_FD <= i < fd ==> t[i].Some?
      {
        fd := fd + 1;
      }
      PutEntry(p, fd, e, hand);
    }

    method PutEntry(p: nat, fd: nat, e: FdEntry, ghost hand: multiset<nat>)
      requires Balanced(hand + RefOf(Some(e))) && p < |procs| && fd <= |procs[p]| && (fd < |procs[p]| ==> procs[p][fd].None?)
      modifies `procs
      ensures Balanced(hand) && procs == old(procs)[p := Put(old(procs)[p], fd, e)]
    {
      PutBalance(shm.objs, procs, sockets.eps, held, hand, p, fd, e);
      procs := procs[p := Put(procs[p], fd, e)];
    }

    /** `Drop` of a descriptor whose reference is in `hand`. */
    method DropEntry(e: Option<FdEntry>, ghost hand: multiset<nat>)
      requires Balanced(hand + RefOf(e))
      modifies sockets`eps, sockets`listeners, shm, shm.pmm.bits
      ensures Balanced(hand) && shm.Pool() == old(shm.Pool())
    {
      if e.Some? && e.value.ShmFd? {
        DropBalance(shm.objs, procs, sockets.eps, held, hand, e.value.shm);
        shm.Close(e.value.shm);
      } else if e.Some? && e.value.SocketFd? {
        CloseSocket(e.value.socket, hand);
      }
    }

    /** Closing an endpoint drops what is queued in it. */
    method CloseSocket(id: nat, ghost hand: multiset<nat>)
      requires Balanced(hand)
      modifies sockets`eps, sockets`listeners, shm, shm.pmm.bits
      ensures Balanced(hand) && shm.Pool() == old(shm.Pool())
      ensures sockets.eps == Removed(old(sockets.eps), id)
    {
      ghost var ids := Pending(sockets.eps, id);
      RemovedFlight(sockets.eps, id);
      assert Balance(shm.objs, procs, Removed(sockets.eps, id), held, hand + multiset(ids));
      DropAllBalance(shm.objs, procs, Removed(sockets.eps, id), held, hand, ids);
      sockets.Close(id);
    }

    method MemfdCreate(p: nat) returns (fd: nat)
      requires Valid() && p < |procs|
      modifies `procs, shm
      ensures Valid() && shm.Pool() == old(shm.Pool())
      ensures |procs| == |old(procs)| && fd < |procs[p]| && procs[p][fd].Some? && procs[p][fd].value.ShmFd?
      ensures RefCount(shm.objs, procs[p][fd].value.shm) == 1 && !Live(old(shm.objs), procs[p][fd].value.shm)
      ensures forall k: nat :: k != procs[p][fd].value.shm ==> RefCount(shm.objs, k) == RefCount(old(shm.objs), k)
    {
      var id := shm.Create();
      CreateBalance(old(shm.objs), shm.objs, procs, sockets.eps, held, id);
      fd := AllocFd(p, ShmFd(id), multiset{});
    }

    method NewSocket(p: nat) returns (fd: nat)
      requires Valid() && p < |procs|
      modifies `procs, sockets`eps
      ensures Valid() && |procs| == |old(procs)| && fd < |procs[p]| && procs[p][fd].Some? && procs[p][fd].value.SocketFd?
    {
      var id := sockets.Create();
      fd := AllocFd(p, SocketFd(id), multiset{});
    }

    method Connect(p: nat, fd: nat, path: string) returns (ok: bool)
      requires Valid() && p < |procs|
      modifies sockets`eps
      ensures Valid()
      ensures !IsSocket(procs[p], fd) ==> !ok && sockets.eps == old(sockets.eps)
      ensures ok ==> var id := procs[p][fd].value.socket;
                     path in sockets.listeners && Open(sockets.eps, id) && sockets.eps[id].value.role.Connected?
                     && Paired(sockets.eps, sockets.listeners[path], id, sockets.eps[id].value.role.peer)
    {
      ok := false;
      if IsSocket(procs[p], fd) {
        ghost var server;
        ok, server := sockets.Connect(procs[p][fd].value.socket, path);
      }
    }

    /** `close`: the reserved and the unused descriptors are refused. */
    method CloseFd(p: nat, fd: nat) returns (ok: bool)
      requires Valid() && p < |procs|
      modifies this, sockets`eps, sockets`listeners, shm, shm.pmm.bits
      ensures Valid() && shm.Pool() == old(shm.Pool()) && held == old(held)
      ensures ok <==> FIRST_FILE_FD <= fd < |old(procs)[p]| && old(procs)[p][fd].Some?
      ensures procs == if ok then old(procs)[p := old(procs)[p][fd := None]] else old(procs)
    {
      ok := FIRST_FILE_FD <= fd < |procs[p]| && procs[p][fd].Some?;
      if ok {
        var e := procs[p][fd];
        ClearBalance(shm.objs, procs, sockets.eps, held, multiset{}, p, fd);
        procs := procs[p := procs[p][fd := None]];
        DropEntry(e, multiset{});
      }
    }

    /** The end of a process drops its descriptors one by one. */
    method Exit(p: nat)
      requires Valid() && p < |procs|
      modifies this, sockets`eps, sockets`listeners, shm, shm.pmm.bits
      ensures Valid() && shm.Pool() == old(shm.Pool()) && held == old(held)
      ensures |procs| == |old(procs)| && |procs[p]| == |old(procs)[p]| && forall i :: 0 <= i < |procs[p]| ==> procs[p][i].None?
      ensures forall q :: 0 <= q < |procs| && q != p ==> procs[q] == old(procs)[q]
    {
      var i: nat := 0;
      while i < |procs[p]|
        invariant Valid() && shm.Pool() == old(shm.Pool()) && held == old(held) && |procs| == |old(procs)|
        invariant |procs[p]| == |old(procs)[p]| && i <= |procs[p]| && forall j :: 0 <= j < i ==> procs[p][j].None?
        invariant forall q :: 0 <= q < |procs| && q != p ==> procs[q] == old(procs)[q]
      {
        var e := procs[p][i];
        ClearBalance(shm.objs, procs, sockets.eps, held, multiset{}, p, i);
        procs := procs[p := procs[p][i := None]];
        DropEntry(e, multiset{});
        i := i + 1;
      }
    }

    /** `sendmsg`: the references travel to the peer's inbox, the sender keeps its own.
        Without a peer nothing changes. */
    method Sendmsg(p: nat, fd: nat, bytes: seq<bv8>, fds: seq<nat>) returns (r: Reply)
      requires Valid() && p < |procs|
      modifies sockets`eps, shm, shm.pmm.bits
      ensures Valid() && shm.Pool() == old(shm.Pool())
      ensures r.BadFd? <==> !IsSocket(procs[p], fd)
      ensures !r.Done? ==> sockets.eps == old(sockets.eps) && shm.objs == old(shm.objs)
      ensures r.Done? ==> r.count == |bytes| && InFlight(sockets.eps) == InFlight(old(sockets.eps)) + multiset(ShmIds(procs[p], fds))
      ensures r.Done? ==> shm.objs == TakenAll(old(shm.objs), ShmIds(procs[p], fds))
                          && Delivered(old(sockets.eps), sockets.eps, procs[p][fd].value.socket, bytes, ShmIds(procs[p], fds))
    {
      if !IsSocket(procs[p], fd) {
        return BadFd;
      }
      var ids := CollectIds(p, fds);
      ShmIdsCounted(procs, p, fds);
      var sent := sockets.Send(procs[p][fd].value.socket, bytes, ids);
      if sent.Some? {
        SendBalance(old(shm.objs), procs, old(sockets.eps), sockets.eps, held, ids);
      }
      r := if sent.Some? then Done(sent.value, [], []) else Pipe;
    }

    method CollectIds(p: nat, fds: seq<nat>) returns (ids: seq<nat>)
      requires p < |procs|
      ensures ids == ShmIds(procs[p], fds)
    {
      ids := [];
      var i: nat := 0;
      while i < |fds|
        invariant i <= |fds| && ids == ShmIds(procs[p], fds[..i])
      {
        var fd, t := fds[i], procs[p];
        assert fds[..i + 1][..i] == fds[..i];
        if fd < |t| && t[fd].Some? && t[fd].value.ShmFd? {
          ids := ids + [t[fd].value.shm];
        }
        i := i + 1;
      }
      assert fds[..|fds|] == fds;
    }

    /** `recvmsg`: with room for `control` bytes of control data (None: no such buffer)
        the first descriptors become open ones, in order; the others are dropped. */
    method Recvmsg(p: nat, fd: nat, cap: nat, control: Option<nat>) returns (r: Reply)
      requires Valid() && p < |procs|
      modifies `procs, sockets`eps, shm, shm.pmm.bits
      ensures Valid() && shm.Pool() == old(shm.Pool()) && |procs| == |old(procs)|
      ensures r.BadFd? <==> !IsSocket(old(procs)[p], fd)
      ensures !r.Done? ==> sockets.eps == old(sockets.eps) && shm.objs == old(shm.objs) && procs == old(procs)
      ensures r.Done? ==>
                var ids := Pending(old(sockets.eps), old(procs)[p][fd].value.socket);
                && |r.fds| == Room(control, |ids|) && Opened(procs[p], ids, r.fds) && OnlyOpened(old(procs), procs, p, r.fds)
                && shm.objs == DroppedAll(old(shm.objs), ids[|r.fds|..])
                && Received(old(sockets.eps), sockets.eps, old(procs)[p][fd].value.socket, cap, r)
    {
      if !IsSocket(procs[p], fd) {
        r := BadFd;
      } else {
        var s := procs[p][fd].value.socket;
        if s >= |sockets.eps| || sockets.eps[s].None? || sockets.eps[s].value.inbox == [] {
          r := Again;
        } else {
          r := RecvQueued(p, s, cap, control);
        }
      }
    }

    /** The bytes and references queued in endpoint `s`. */
    method RecvQueued(p: nat, s: nat, cap: nat, control: Option<nat>) returns (r: Reply)
      requires Valid() && p < |procs| && s < |sockets.eps| && sockets.eps[s].Some? && sockets.eps[s].value.inbox != []
      modifies `procs, sockets`eps, shm, shm.pmm.bits
      ensures Valid() && shm.Pool() == old(shm.Pool()) && |procs| == |old(procs)| && r.Done?
      ensures var ids := Pending(old(sockets.eps), s);
              && |r.fds| == Room(control, |ids|) && Opened(procs[p], ids, r.fds) && OnlyOpened(old(procs), procs, p, r.fds)
              && shm.objs == DroppedAll(old(shm.objs), ids[|r.fds|..])
      ensures Received(old(sockets.eps), sockets.eps, s, cap, r)
    {
      var bytes, ids := sockets.Recv(s, cap);
      RecvBalance(shm.objs, procs, old(sockets.eps), sockets.eps, held, ids);
      var fds := Deliver(p, ids, control);
      r := Done(|bytes|, bytes, fds);
    }

    /** What `recvmsg` does with the received references. */
    method Deliver(p: nat, ids: seq<nat>, control: Option<nat>) returns (fds: seq<nat>)
      requires Balanced(multiset(ids)) && p < |procs|
      modifies `procs, shm, shm.pmm.bits
      ensures Valid() && shm.Pool() == old(shm.Pool()) && |procs| == |old(procs)|
      ensures |fds| == Room(control, |ids|) && Opened(procs[p], ids, fds) && OnlyOpened(old(procs), procs, p, fds)
      ensures shm.objs == DroppedAll(old(shm.objs), ids[|fds|..])
    {
      var room := Room(control, |ids|);
      fds := OpenReceived(p, ids, room);
      DropReceived(ids[room..]);
    }

    method OpenReceived(p: nat, ids: seq<nat>, room: nat) returns (fds: seq<nat>)
      requires Balanced(multiset(ids)) && p < |procs| && room <= |ids|
      modifies `procs
      ensures Balanced(multiset(ids[room..])) && |fds| == room && |procs| == |old(procs)| && Opened(procs[p], ids, fds)
      ensures OnlyOpened(old(procs), procs, p, fds)
    {
      fds := [];
      var k: nat := 0;
      assert ids[0..] == ids;
      while k < room
        invariant k <= room && |fds| == k && |procs| == |old(procs)|
        invariant Balanced(multiset(ids[k..])) && Opened(procs[p], ids, fds) && OnlyOpened(old(procs), procs, p, fds)
      {
        fds := OpenNext(p, ids, fds, k, old(procs));
        k := k + 1;
      }
    }

    method OpenNext(p: nat, ids: seq<nat>, fds: seq<nat>, k: nat, ghost procs0: seq<Table>) returns (fds2: seq<nat>)
      requires k == |fds| < |ids| && p < |procs| && Balanced(multiset(ids[k..])) && Opened(procs[p], ids, fds)
      requires p < |procs0| && |procs| == |procs0| && OnlyOpened(procs0, procs, p, fds)
      modifies `procs
      ensures |procs| == |old(procs)| && |fds2| == k + 1 && OnlyOpened(procs0, procs, p, fds2)
      ensures Balanced(multiset(ids[k + 1..])) && Opened(procs[p], ids, fds2)
    {
      HeadHand(ids, k, k + 1);
      ghost var t, procs1 := procs[p], procs;
      var fd := AllocFd(p, ShmFd(ids[k]), multiset(ids[k + 1..]));
      OpenedStep(t, ids, fds, k, fd);
      OnlyOpenedStep(procs0, procs1, p, fds, fd, ShmFd(ids[k]));
      fds2 := fds + [fd];
    }

    method DropReceived(ids: seq<nat>)
      requires Balanced(multiset(ids))
      modifies shm, shm.pmm.bits
      ensures Valid() && shm.Pool() == old(shm.Pool()) && shm.objs == DroppedAll(old(shm.objs), ids)
    {
      assert multiset{} + multiset(ids) == multiset(ids);
      DropAllBalance(shm.objs, procs, sockets.eps, held, multiset{}, ids);
      CloseEach(shm, ids);
    }

    /** `read` on a socket: queued descriptors are lost and their references dropped. */
    method Read(p: nat, fd: nat, cap: nat) returns (r: Reply)
      requires Valid() && p < |procs|
      modifies sockets`eps, shm, shm.pmm.bits
      ensures Valid() && shm.Pool() == old(shm.Pool())
      ensures if IsSocket(procs[p], fd) then Received(old(sockets.eps), sockets.eps, procs[p][fd].value.socket, cap, r) else r == BadFd
      ensures shm.objs == if IsSocket(procs[p], fd) then DroppedAll(old(shm.objs), Pending(old(sockets.eps), procs[p][fd].value.socket)) else old(shm.objs)
    {
      if !IsSocket(procs[p], fd) {
        return BadFd;
      }
      var bytes, ids := sockets.Recv(procs[p][fd].value.socket, cap);
      RecvBalance(shm.objs, procs, old(sockets.eps), sockets.eps, held, ids);
      DropReceived(ids);
      r := Done(|bytes|, bytes, []);
    }

    /** A kernel task receives on its end of a connection and keeps the references. */
    method KernelRecv(s: nat, cap: nat) returns (bytes: seq<bv8>)
      requires Valid()
      modifies `held, sockets`eps
      ensures Valid() && held == old(held) + Pending(old(sockets.eps), s)
      ensures bytes == Available(old(sockets.eps), s, cap) && sockets.eps == Drained(old(sockets.eps), s, cap)
    {
      var ids;
      bytes, ids := sockets.Recv(s, cap);
      RecvBalance(shm.objs, procs, old(sockets.eps), sockets.eps, held, ids);
      Hold(ids);
    }

    method Hold(ids: seq<nat>)
      requires Balanced(multiset(ids))
      modifies `held
      ensures Valid() && held == old(held) + ids
    {
      HoldBalance(shm.objs, procs, sockets.eps, held, ids);
      held := held + ids;
    }

    /** A kernel task opens, binds and listens on an endpoint, or takes a connection. */
    method KernelSocket()
      requires Valid()
      modifies sockets`eps
      ensures Valid()
    {
      var s := sockets.Create();
    }

    method KernelBind(s: nat, path: string)
      requires Valid()
      modifies sockets`eps
      ensures Valid()
    {
      var ok := sockets.Bind(s, path);
    }

    method KernelListen(s: nat)
      requires Valid()
      modifies sockets`eps, sockets`listeners
      ensures Valid()
    {
      var ok := sockets.Listen(s);
    }

    method KernelAccept(s: nat) returns (conn: Option<nat>)
      requires Valid()
      modifies sockets`eps
      ensures Valid()
      ensures conn.None? <==> !Open(old(sockets.eps), s) || old(sockets.eps)[s].value.backlog == []
      ensures conn.Some? ==> conn.value == old(sockets.eps)[s].value.backlog[0]
    {
      conn := sockets.Accept(s);
    }

    /** It gives one of them up. */
    method KernelDrop(i: nat)
      requires Valid() && i < |held|
      modifies `held, shm, shm.pmm.bits
      ensures Valid() && shm.Pool() == old(shm.Pool()) && held == old(held)[..i] + old(held)[i + 1..]
      ensures RefCount(shm.objs, old(held)[i]) == RefCount(old(shm.objs), old(held)[i]) - 1
    {
      var id, rest := held[i], held[..i] + held[i + 1..];
      ReleaseBalance(shm.objs, procs, sockets.eps, held, rest, i);
      DropBalance(shm.objs, procs, sockets.eps, rest, multiset{}, id);
      held := rest;
      shm.Close(id);
    }

    /** `ftruncate` on an open descriptor. */
    method Ftruncate(p: nat, fd: nat, size: nat) returns (ok: bool)
      requires Valid() && p < |procs|
      modifies shm, shm.pmm.bits
      ensures Valid() && shm.Pool() == old(shm.Pool())
      ensures ok ==> fd < |procs[p]| && procs[p][fd].Some? && procs[p][fd].value.ShmFd?
      ensures ok ==> var id := procs[p][fd].value.shm;
                     |shm.objs| == |old(shm.objs)| && Live(shm.objs, id) && shm.objs[id].value.size == size && shm.objs == old(shm.objs)[id := shm.objs[id]]
      ensures !ok ==> shm.objs == old(shm.objs)
    {
      ok := false;
      var t := procs[p];
      if fd < |t| && t[fd].Some? && t[fd].value.ShmFd? {
        ok := shm.Truncate(t[fd].value.shm, size);
        assert forall k: nat :: RefCount(shm.objs, k) == RefCount(old(shm.objs), k);
      }
    }
  }

  /** Once nothing refers to any object, no frame backs one: all are free again. */
  lemma NothingLeft(objs: Objects, free: set<nat>, ps: seq<Table>, eps: Endpoints)
    requires Sound(objs, free) && Balance(objs, ps, eps, [], multiset{}) && ProcRefs(ps) == multiset{} && InFlight(eps) == multiset{}
    ensures Used(objs) == {}
  {
    forall id: nat ensures Backing(objs, id) == {} {
      ReferencedIsLive(objs, free, ps, eps, [], id);
    }
  }

  datatype Op =
    | OpNewProcess
    | OpMemfd(p: nat)
    | OpSocket(p: nat)
    | OpConnect(p: nat, fd: nat, path: string)
    | OpSend(p: nat, fd: nat, bytes: seq<bv8>, fds: seq<nat>)
    | OpRecv(p: nat, fd: nat, cap: nat, control: Option<nat>)
    | OpRead(p: nat, fd: nat, cap: nat)
    | OpTruncate(p: nat, fd: nat, size: nat)
    | OpClose(p: nat, fd: nat)
    | OpExit(p: nat)
    | OpKernelSocket
    | OpBind(s: nat, path: string)
    | OpListen(s: nat)
    | OpAccept(s: nat)
    | OpKernelRecv(s: nat, cap: nat)
    | OpKernelDrop(i: nat)
    | OpKernelClose(s: nat)

  /** One step of a run; a step for a process that does not exist does nothing. */
  method Perform(k: Kernel, op: Op)
    requires k.Valid()
    modifies k, k.sockets`eps, k.sockets`listeners, k.shm, k.shm.pmm.bits
    ensures k.Valid() && k.shm.Pool() == old(k.shm.Pool())
  {
    if KernelOp(op) {
      PerformKernel(k, op);
    } else if op.p < |k.procs| {
      PerformFor(k, op);
    }
  }

  predicate KernelOp(op: Op) {
    op.OpNewProcess? || op.OpKernelDrop? || op.OpKernelRecv? || op.OpKernelClose? || op.OpAccept?
    || op.OpKernelSocket? || op.OpBind? || op.OpListen?
  }

  method PerformKernel(k: Kernel, op: Op)
    requires k.Valid() && KernelOp(op)
    modifies k, k.sockets`eps, k.sockets`listeners, k.shm, k.shm.pmm.bits
    ensures k.Valid() && k.shm.Pool() == old(k.shm.Pool())
  {
    if op.OpNewProcess? {
      var p := k.NewProcess();
    } else if op.OpKernelDrop? {
      if op.i < |k.held| {
        k.KernelDrop(op.i);
      }
    } else if op.OpKernelRecv? {
      var bytes := k.KernelRecv(op.s, op.cap);
    } else if op.OpKernelClose? {
      k.CloseSocket(op.s, multiset{});
    } else if op.OpAccept? {
      var conn := k.KernelAccept(op.s);
    } else if op.OpListen? {
      k.KernelListen(op.s);
    } else if op.OpBind? {
      k.KernelBind(op.s, op.path);
    } else {
      k.KernelSocket();
    }
  }

  method PerformFor(k: Kernel, op: Op)
    requires k.Valid() && !KernelOp(op) && op.p < |k.procs|
    modifies k, k.sockets`eps, k.sockets`listeners, k.shm, k.shm.pmm.bits
    ensures k.Valid() && k.shm.Pool() == old(k.shm.Pool())
  {
    match op
    case OpMemfd(p) => var fd := k.MemfdCreate(p);
    case OpSocket(p) => var fd := k.NewSocket(p);
    case OpConnect(p, fd, path) => var ok := k.Connect(p, fd, path);
    case OpSend(p, fd, bytes, fds) => var r := k.Sendmsg(p, fd, bytes, fds);
    case OpRecv(p, fd, cap, control) => var r := k.Recvmsg(p, fd, cap, control);
    case OpRead(p, fd, cap) => var r := k.Read(p, fd, cap);
    case OpTruncate(p, fd, size) => var ok := k.Ftruncate(p, fd, size);
    case OpClose(p, fd) => var ok := k.CloseFd(p, fd);
    case OpExit(p) => k.Exit(p);
    case _ => assert false;
  }

  /** Any run from boot: every count stays exact and every frame is free or backs a
      referenced object. */
  method RunAll(frames: FrameBitmap, ops: seq<Op>) returns (k: Kernel)
    requires frames.Valid()
    modifies frames.bits
    ensures k.Valid() && k.shm.pmm == frames && k.shm.Pool() == old(frames.Free())
  {
    var shm := new ShmTable(frames);
    var sockets := new SocketTable(shm);
    k := new Kernel(sockets);
    var i: nat := 0;
    while i < |ops|
      invariant i <= |ops| && k.Valid() && k.shm.Pool() == old(frames.Free())
      invariant fresh(k) && fresh(k.sockets) && fresh(k.shm) && k.shm.pmm == frames
    {
      Perform(k, ops[i]);
      i := i + 1;
    }
  }

  /** How many descriptors fit the control buffer: 16 bytes of header, 4 for each. */
  function Room(control: Option<nat>, n: nat): (r: nat)
    ensures r <= n
  {
    if control.None? || n == 0 || control.value < 16 then 0
    else if (control.value - 16) / 4 < n then (control.value - 16) / 4 else n
  }

  predicate IsSocket(t: Table, fd: nat) { fd < |t| && t[fd].Some? && t[fd].value.SocketFd? }
}
