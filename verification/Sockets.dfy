/** Local stream sockets (src/socket.rs): endpoints with byte and descriptor inboxes.
    Passed descriptors are shared-memory ids, each holding a reference while queued. */
module Sockets {
  import opened Wrappers
  import opened Pmm
  import opened Shm

  datatype Role = Idle | Bound(path: string) | Listening | Connected(peer: nat)

  datatype Endpoint = Endpoint(role: Role, inbox: seq<bv8>, fds: seq<nat>, backlog: seq<nat>)

  type Endpoints = seq<Option<Endpoint>>

  const FRESH: Endpoint := Endpoint(Idle, [], [], [])

  predicate Open(eps: Endpoints, id: nat) { id < |eps| && eps[id].Some? }

  function Queued(ep: Option<Endpoint>): seq<nat> { if ep.Some? then ep.value.fds else [] }

  /** All descriptors queued in inboxes. */
  function InFlight(eps: Endpoints): multiset<nat> {
    if eps == [] then multiset{} else InFlight(eps[..|eps| - 1]) + multiset(Queued(eps[|eps| - 1]))
  }

  lemma InFlightSnoc(eps: Endpoints, n: nat, k: nat)
    requires |eps| == n + 1
    ensures InFlight(eps)[k] == InFlight(eps[..n])[k] + multiset(Queued(eps[n]))[k]
  {
  }

  /** Changing one endpoint exchanges its queue. */
  lemma {:induction false} InFlightAt(eps: Endpoints, id: nat, ep: Option<Endpoint>, k: nat)
    requires id < |eps|
    ensures InFlight(eps[id := ep])[k] + multiset(Queued(eps[id]))[k] == InFlight(eps)[k] + multiset(Queued(ep))[k]
    decreases |eps|
  {
    var n := |eps| - 1;
    var eps2 := eps[id := ep];
    InFlightSnoc(eps, n, k);
    InFlightSnoc(eps2, n, k);
    if id == n {
      assert eps2[..n] == eps[..n];
    } else {
      InFlightAt(eps[..n], id, ep, k);
      assert eps2[..n] == eps[..n][id := ep];
    }
  }

  lemma InFlightUpdate(eps: Endpoints, id: nat, ep: Option<Endpoint>)
    requires id < |eps|
    ensures multiset(Queued(eps[id])) <= InFlight(eps)
    ensures InFlight(eps[id := ep]) == InFlight(eps) - multiset(Queued(eps[id])) + multiset(Queued(ep))
  {
    var q, q2, a := multiset(Queued(eps[id])), multiset(Queued(ep)), InFlight(eps);
    var c := InFlight(eps[id := ep]);
    forall k: nat ensures q[k] <= a[k] && c[k] == a[k] - q[k] + q2[k] {
      InFlightAt(eps, id, None, k);
      InFlightAt(eps, id, ep, k);
    }
  }

  /** The same when its queue stays. */
  lemma InFlightKept(eps: Endpoints, id: nat, ep: Option<Endpoint>)
    requires id < |eps| && Queued(ep) == Queued(eps[id])
    ensures InFlight(eps[id := ep]) == InFlight(eps)
  {
    InFlightUpdate(eps, id, ep);
  }

  lemma InFlightPush(eps: Endpoints, ep: Option<Endpoint>)
    ensures InFlight(eps + [ep]) == InFlight(eps) + multiset(Queued(ep))
  {
    assert (eps + [ep])[..|eps|] == eps;
  }

  /** An endpoint without queued descriptors put into a free slot or at the end. */
  lemma InFlightPlace(eps: Endpoints, id: nat, ep: Endpoint)
    requires id <= |eps| && !Open(eps, id) && ep.fds == []
    ensures InFlight(Placed(eps, id, ep)) == InFlight(eps)
  {
    if id < |eps| {
      InFlightUpdate(eps, id, Some(ep));
    } else {
      InFlightPush(eps, Some(ep));
    }
  }

  function Placed(eps: Endpoints, id: nat, ep: Endpoint): Endpoints
    requires id <= |eps|
  {
    if id < |eps| then eps[id := Some(ep)] else eps + [Some(ep)]
  }

  function WithServer(eps: Endpoints, id: nat, server: nat): Endpoints
    requires server <= |eps|
  {
    Placed(eps, server, FRESH.(role := Connected(id)))
  }

  /** The server waits on the listener, if that is open, and then answers `id`, if that is. */
  function Linked(eps: Endpoints, l: nat, id: nat, server: nat): Endpoints {
    if !Open(eps, l) then eps
    else
      var queued := eps[l := Some(eps[l].value.(backlog := eps[l].value.backlog + [server]))];
      if !Open(queued, id) then queued else queued[id := Some(queued[id].value.(role := Connected(server)))]
  }

  /** A connection touches the listener's backlog and the client's role only, in every
      outcome: a client that is not open leaves the server end queued on the listener. */
  lemma LinkedIs(eps: Endpoints, l: nat, id: nat, server: nat)
    ensures var eps2 := Linked(eps, l, id, server);
            && |eps2| == |eps| && (forall k: nat :: Open(eps2, k) == Open(eps, k))
            && (forall k: nat :: Open(eps, k) && k != l && k != id ==> eps2[k] == eps[k])
            && (forall k: nat :: Open(eps, k) ==> eps2[k].value.inbox == eps[k].value.inbox && eps2[k].value.fds == eps[k].value.fds)
            && (Open(eps, l) ==> eps2[l].value.backlog == eps[l].value.backlog + [server])
            && (Open(eps, l) && !Open(eps, id) ==> eps2[l].value.role == eps[l].value.role)
  {
  }

  /** The server end answers to `id` and waits on the listener. */
  ghost predicate Paired(eps: Endpoints, listener: nat, id: nat, server: nat) {
    && Open(eps, server) && (server != id ==> eps[server].value.role == Connected(id))
    && Open(eps, listener) && server in eps[listener].value.backlog
  }

  class SocketTable {
    const shm: ShmTable
    var eps: Endpoints
    var listeners: map<string, nat>

    constructor (table: ShmTable)
      ensures shm == table && eps == [] && listeners == map[]
    {
      shm, eps, listeners := table, [], map[];
    }

    /** Puts an endpoint into the first free slot. */
    method AllocEndpoint(ep: Endpoint) returns (id: nat)
      requires ep.fds == []
      modifies `eps
      ensures id <= |old(eps)| && !Open(old(eps), id) && eps == Placed(old(eps), id, ep)
      ensures forall k: nat :: k < id ==> Open(old(eps), k)
      ensures InFlight(eps) == InFlight(old(eps))
    {
      id := 0;
      while id < |eps| && eps[id].Some?
        invariant id <= |eps| && forall k: nat :: k < id ==> Open(eps, k)
      {
        id := id + 1;
      }
      InFlightPlace(eps, id, ep);
      eps := Placed(eps, id, ep);
    }

    method Create() returns (id: nat)
      modifies `eps
      ensures id <= |old(eps)| && !Open(old(eps), id) && eps == Placed(old(eps), id, FRESH)
      ensures InFlight(eps) == InFlight(old(eps))
    {
      id := AllocEndpoint(FRESH);
    }

    method Bind(id: nat, path: string) returns (ok: bool)
      modifies `eps
      ensures ok <==> path !in listeners && Open(old(eps), id) && old(eps)[id].value.role == Idle
      ensures eps == if ok then old(eps)[id := Some(old(eps)[id].value.(role := Bound(path)))] else old(eps)
      ensures InFlight(eps) == InFlight(old(eps))
    {
      ok := false;
      if path !in listeners && id < |eps| && eps[id].Some? && eps[id].value.role == Idle {
        InFlightKept(eps, id, Some(eps[id].value.(role := Bound(path))));
        eps := eps[id := Some(eps[id].value.(role := Bound(path)))];
        ok := true;
      }
    }

    method Listen(id: nat) returns (ok: bool)
      modifies `eps, `listeners
      ensures ok <==> Open(old(eps), id) && old(eps)[id].value.role.Bound?
      ensures eps == if ok then old(eps)[id := Some(old(eps)[id].value.(role := Listening))] else old(eps)
      ensures listeners == if ok then old(listeners)[old(eps)[id].value.role.path := id] else old(listeners)
      ensures InFlight(eps) == InFlight(old(eps))
    {
      ok := false;
      if id < |eps| && eps[id].Some? && eps[id].value.role.Bound? {
        var path := eps[id].value.role.path;
        InFlightKept(eps, id, Some(eps[id].value.(role := Listening)));
        eps := eps[id := Some(eps[id].value.(role := Listening))];
        listeners := listeners[path := id];
        ok := true;
      }
    }

    /** Makes a server endpoint for `id` in the first free slot and links both to the
        listener at `path`. When it succeeds the two ends name each other. */
    method Connect(id: nat, path: string) returns (ok: bool, ghost server: nat)
      modifies `eps
      ensures path !in listeners ==> !ok && eps == old(eps)
      ensures path in listeners ==>
                && server <= |old(eps)| && !Open(old(eps), server) && (forall k: nat :: k < server ==> Open(old(eps), k))
                && eps == Linked(WithServer(old(eps), id, server), listeners[path], id, server)
                && (ok <==> Open(eps, listeners[path]) && Open(eps, id))
      ensures InFlight(eps) == InFlight(old(eps))
      ensures ok ==> eps[id].value.role == Connected(server) && Paired(eps, listeners[path], id, server)
    {
      ok, server := false, 0;
      if path in listeners {
        var s := AllocEndpoint(FRESH.(role := Connected(id)));
        server := s;
        ok := LinkUp(listeners[path], id, s);
      }
    }

    /** The rest of `connect`, once the server's endpoint exists. */
    method LinkUp(l: nat, id: nat, server: nat) returns (ok: bool)
      requires Open(eps, server) && eps[server].value.role == Connected(id)
      modifies `eps
      ensures InFlight(eps) == InFlight(old(eps)) && eps == Linked(old(eps), l, id, server)
      ensures ok <==> Open(eps, l) && Open(eps, id)
      ensures ok ==> eps[id].value.role == Connected(server) && Paired(eps, l, id, server)
    {
      ok := false;
      if l < |eps| && eps[l].Some? {
        SetEndpoint(l, eps[l].value.(backlog := eps[l].value.backlog + [server]));
        if id < |eps| && eps[id].Some? {
          SetEndpoint(id, eps[id].value.(role := Connected(server)));
          ok := true;
        }
      }
    }

    method SetEndpoint(id: nat, ep: Endpoint)
      requires Open(eps, id) && ep.fds == eps[id].value.fds
      modifies `eps
      ensures eps == old(eps)[id := Some(ep)] && InFlight(eps) == InFlight(old(eps))
    {
      InFlightKept(eps, id, Some(ep));
      eps := eps[id := Some(ep)];
    }

    method Accept(l: nat) returns (r: Option<nat>)
      modifies `eps
      ensures r.None? ==> eps == old(eps)
      ensures r.None? <==> !Open(old(eps), l) || old(eps)[l].value.backlog == []
      ensures r.Some? ==> r.value == old(eps)[l].value.backlog[0]
                          && eps == old(eps)[l := Some(old(eps)[l].value.(backlog := old(eps)[l].value.backlog[1..]))]
      ensures InFlight(eps) == InFlight(old(eps))
    {
      r := None;
      if l < |eps| && eps[l].Some? && eps[l].value.backlog != [] {
        var ep := eps[l].value;
        r := Some(ep.backlog[0]);
        InFlightKept(eps, l, Some(ep.(backlog := ep.backlog[1..])));
        eps := eps[l := Some(ep.(backlog := ep.backlog[1..]))];
      }
    }

    /** Delivers bytes and references to the peer. Without a peer nothing changes, though
        the references are taken and dropped again on the way. */
    method Send(id: nat, bytes: seq<bv8>, fds: seq<nat>) returns (r: Option<nat>)
      requires shm.Valid()
      modifies `eps, shm, shm.pmm.bits
      ensures shm.Valid() && shm.Pool() == old(shm.Pool())
      ensures r.None? ==> eps == old(eps) && shm.objs == old(shm.objs)
      ensures r.Some? ==> r.value == |bytes| && shm.objs == TakenAll(old(shm.objs), fds)
      ensures r.Some? ==> InFlight(eps) == InFlight(old(eps)) + multiset(fds)
      ensures r.Some? <==> Open(old(eps), id) && old(eps)[id].value.role.Connected? && Open(old(eps), old(eps)[id].value.role.peer)
      ensures r.Some? ==> var p := old(eps)[id].value.role.peer;
                          var was := old(eps)[p].value;
                          eps == old(eps)[p := Some(was.(inbox := was.inbox + bytes, fds := was.fds + fds))]
    {
      r := None;
      if id < |eps| && eps[id].Some? && eps[id].value.role.Connected? {
        var p := eps[id].value.role.peer;
        TakeDrop(shm.objs, fds);
        DupEach(shm, fds);
        if p < |eps| && eps[p].Some? {
          var was := eps[p].value;
          InFlightUpdate(eps, p, Some(was.(inbox := was.inbox + bytes, fds := was.fds + fds)));
          assert multiset(was.fds + fds) == multiset(was.fds) + multiset(fds);
          eps := eps[p := Some(was.(inbox := was.inbox + bytes, fds := was.fds + fds))];
          r := Some(|bytes|);
        } else {
          CloseEach(shm, fds);
        }
      }
    }

    /** Takes up to `cap` bytes and every queued descriptor. */
    method Recv(id: nat, cap: nat) returns (bytes: seq<bv8>, fds: seq<nat>)
      modifies `eps
      ensures bytes == Available(old(eps), id, cap) && fds == Pending(old(eps), id) && eps == Drained(old(eps), id, cap)
      ensures InFlight(eps) + multiset(fds) == InFlight(old(eps))
    {
      bytes, fds := [], [];
      if id < |eps| && eps[id].Some? {
        var was := eps[id].value;
        var n := if cap < |was.inbox| then cap else |was.inbox|;
        bytes, fds := was.inbox[..n], was.fds;
        var left := Some(was.(inbox := was.inbox[n..], fds := []));
        DrainedIs(eps, id, cap, n, left);
        eps := eps[id := left];
      } else {
        assert Drained(eps, id, cap) == eps;
      }
    }

    /** Closes an endpoint; the references queued in it are dropped. */
    method Close(id: nat)
      requires shm.Valid()
      modifies `eps, `listeners, shm, shm.pmm.bits
      ensures shm.Valid() && shm.Pool() == old(shm.Pool())
      ensures eps == Removed(old(eps), id) && listeners == Unlisted(old(listeners), id)
      ensures shm.objs == DroppedAll(old(shm.objs), Pending(old(eps), id))
      ensures multiset(Pending(old(eps), id)) <= InFlight(old(eps))
      ensures InFlight(eps) == InFlight(old(eps)) - multiset(Pending(old(eps), id))
    {
      RemovedFlight(eps, id);
      CloseEach(shm, Pending(eps, id));
      listeners := Unlisted(listeners, id);
      eps := Removed(eps, id);
    }
  }

  function Unlisted(listeners: map<string, nat>, id: nat): map<string, nat> {
    map p | p in listeners && listeners[p] != id :: listeners[p]
  }

  function Removed(eps: Endpoints, id: nat): Endpoints { if id < |eps| then eps[id := None] else eps }

  function Pending(eps: Endpoints, id: nat): seq<nat> { if Open(eps, id) then eps[id].value.fds else [] }

  /** The bytes a receiver with room for `cap` gets. */
  function Available(eps: Endpoints, id: nat, cap: nat): seq<bv8> {
    if !Open(eps, id) then [] else if cap < |eps[id].value.inbox| then eps[id].value.inbox[..cap] else eps[id].value.inbox
  }

  /** The endpoints after that: the rest of the bytes stays, no descriptor does. */
  function Drained(eps: Endpoints, id: nat, cap: nat): Endpoints {
    if !Open(eps, id) then eps
    else eps[id := Some(eps[id].value.(inbox := eps[id].value.inbox[|Available(eps, id, cap)|..], fds := []))]
  }

  lemma DrainedIs(eps: Endpoints, id: nat, cap: nat, n: nat, left: Option<Endpoint>)
    requires Open(eps, id) && n == (if cap < |eps[id].value.inbox| then cap else |eps[id].value.inbox|)
    requires left == Some(eps[id].value.(inbox := eps[id].value.inbox[n..], fds := []))
    ensures Available(eps, id, cap) == eps[id].value.inbox[..n] && Drained(eps, id, cap) == eps[id := left]
    ensures InFlight(eps[id := left]) + multiset(eps[id].value.fds) == InFlight(eps)
  {
    InFlightUpdate(eps, id, left);
  }

  lemma RemovedFlight(eps: Endpoints, id: nat)
    ensures multiset(Pending(eps, id)) <= InFlight(eps) && InFlight(Removed(eps, id)) == InFlight(eps) - multiset(Pending(eps, id))
  {
    if id < |eps| {
      InFlightUpdate(eps, id, None);
    }
  }
}
