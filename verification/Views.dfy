/** What a page table shows, as a log of map and unmap steps (src/paging.rs:159-226):
    every operation of a process appends the steps it made, and the last step that
    touches a page decides it. */
module Views {
  import opened Wrappers
  import opened PageTable
  import opened Paging

  /** A part of `map_range_in` or `unmap_range_in` that was carried out. */
  datatype ViewOp = MapOp(v: nat, f: nat, k: nat, perm: Perm) | DropOp(v: nat, k: nat)

  type Log = seq<ViewOp>

  predicate TouchesPage(op: ViewOp, q: nat) { op.v <= q < op.v + op.k }

  /** What a step leaves at page `q`, given what was there. */
  function After(op: ViewOp, q: nat, was: Option<Page>): Option<Page> {
    if !TouchesPage(op, q) then was
    else if op.DropOp? then None
    else Some(Page(op.f + (q - op.v), op.perm.writable, op.perm.user, op.perm.nx))
  }

  /** The page the last step that touches `q` leaves there, `start` if there is none. */
  function LastSays(log: Log, q: nat, start: Option<Page>): Option<Page> {
    if log == [] then start else After(log[|log| - 1], q, LastSays(log[..|log| - 1], q, start))
  }

  lemma {:induction false} LastSaysConcat(a: Log, b: Log, q: nat, start: Option<Page>)
    ensures LastSays(a + b, q, start) == LastSays(b, q, LastSays(a, q, start))
    decreases |b|
  {
    if b == [] {
      assert a + b == a;
    } else {
      var n := |b| - 1;
      assert (a + b)[..|a + b| - 1] == a + b[..n] && (a + b)[|a + b| - 1] == b[n];
      LastSaysConcat(a, b[..n], q, start);
    }
  }

  /** The page table `root` shows what `log` makes of the map `kroot` showed in `w0`. */
  ghost predicate Explained(w: Words, root: nat, log: Log, w0: Words, kroot: nat) {
    forall q: nat :: q < ALL_PAGES ==> Walk(w, root, q) == LastSays(log, q, Walk(w0, kroot, q))
  }

  /** The steps `ops` lead from what `w` shows to what `w2` shows. */
  ghost predicate Does(w: Words, w2: Words, root: nat, ops: Log) {
    forall q: nat :: q < ALL_PAGES ==> Walk(w2, root, q) == LastSays(ops, q, Walk(w, root, q))
  }

  lemma ExplainedNext(w: Words, w2: Words, root: nat, log: Log, ops: Log, w0: Words, kroot: nat)
    requires Explained(w, root, log, w0, kroot) && Does(w, w2, root, ops)
    ensures Explained(w2, root, log + ops, w0, kroot)
  {
    forall q: nat | q < ALL_PAGES ensures Walk(w2, root, q) == LastSays(log + ops, q, Walk(w0, kroot, q)) {
      LastSaysConcat(log, ops, q, Walk(w0, kroot, q));
    }
  }

  lemma DoesTrans(w: Words, w2: Words, w3: Words, root: nat, a: Log, b: Log)
    requires Does(w, w2, root, a) && Does(w2, w3, root, b)
    ensures Does(w, w3, root, a + b)
  {
    forall q: nat | q < ALL_PAGES ensures Walk(w3, root, q) == LastSays(a + b, q, Walk(w, root, q)) {
      LastSaysConcat(a, b, q, Walk(w, root, q));
    }
  }

  lemma DoesNothing(w: Words, w2: Words, root: nat)
    requires SameWalks(w, w2, root)
    ensures Does(w, w2, root, [])
  {
  }

  lemma DoesMap(w: Words, w2: Words, root: nat, v: nat, f: nat, k: nat, perm: Perm)
    requires Mapped(w, w2, root, v, f, k, perm)
    ensures Does(w, w2, root, [MapOp(v, f, k, perm)])
  {
    forall q: nat | q < ALL_PAGES ensures Walk(w2, root, q) == LastSays([MapOp(v, f, k, perm)], q, Walk(w, root, q)) {
      MapSays(v, f, k, perm, q, Walk(w, root, q));
    }
  }

  lemma {:induction false} MapSays(v: nat, f: nat, k: nat, perm: Perm, q: nat, start: Option<Page>)
    ensures LastSays([MapOp(v, f, k, perm)], q, start)
            == if v <= q < v + k then Some(Page(f + (q - v), perm.writable, perm.user, perm.nx)) else start
  {
    OneSays(MapOp(v, f, k, perm), q, start);
  }

  lemma {:induction false} OneSays(op: ViewOp, q: nat, start: Option<Page>)
    ensures LastSays([op], q, start) == After(op, q, start)
  {
    assert [op][..0] == [];
  }

  // ---- what ring 3 reaches ------------------------------------------------------------------------

  /** The page was mapped for ring 3 and not unmapped since. */
  predicate MappedSince(log: Log, q: nat) {
    log != [] && (var op := log[|log| - 1];
                  if TouchesPage(op, q) then op.MapOp? && op.perm.user else MappedSince(log[..|log| - 1], q))
  }

  lemma {:induction false} SaysMapped(log: Log, q: nat, start: Option<Page>)
    requires start.Some? ==> !start.value.user
    ensures LastSays(log, q, start).Some? && LastSays(log, q, start).value.user <==> MappedSince(log, q)
    decreases |log|
  {
    if log != [] {
      SaysMapped(log[..|log| - 1], q, start);
    }
  }
}
