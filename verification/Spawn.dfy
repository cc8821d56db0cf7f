/** Creating a process (src/process.rs:646-793, 1000-1057): address space, image, stack, and
    on any failure the return of every frame taken. */
module Spawn {
  import opened Wrappers
  import opened Pmm
  import opened PageTable
  import opened Paging
  import opened AddressSpace
  import opened ProcessMemory
  import opened Process
  import opened Views

  /** The pages a new process may reach from ring 3: image, stack, and for a native
      process the exit stub right above the stack. */
  predicate Initial(q: nat, v: nat, n: nat, low: nat, native: bool) {
    v <= q < v + n || low <= q < STACK_TOP_PAGE || (native && q == STACK_TOP_PAGE)
  }

  /** The new address space is the kernel's, except that exactly the initial pages
      are the process's. */
  ghost predicate InitialView(w: Words, kroot: nat, w2: Words, root: nat, v: nat, n: nat, low: nat, native: bool) {
    && (forall q: nat :: q < ALL_PAGES && !Initial(q, v, n, low, native) ==> Walk(w2, root, q) == Walk(w, kroot, q))
    && (forall q: nat :: q < ALL_PAGES ==> (UserPage(w2, root, q) <==> Initial(q, v, n, low, native)))
  }

  /** The steps that load an image page by page. */
  function ImageOps(v: nat, f: nat, perms: seq<Perm>): (r: Log)
    ensures |r| == |perms|
  {
    seq(|perms|, i requires 0 <= i < |perms| => MapOp(v + i, f + i, 1, perms[i]))
  }

  lemma {:induction false} ImageSays(v: nat, f: nat, perms: seq<Perm>, q: nat, start: Option<Page>)
    ensures LastSays(ImageOps(v, f, perms), q, start) == if v <= q < v + |perms| then Proc.PageWith(f + (q - v), perms[q - v]) else start
    decreases |perms|
  {
    if perms != [] {
      var n := |perms| - 1;
      assert ImageOps(v, f, perms)[..n] == ImageOps(v, f, perms[..n]);
      ImageSays(v, f, perms[..n], q, start);
    }
  }

  lemma DoesImage(w: Words, w2: Words, root: nat, v: nat, f: nat, perms: seq<Perm>)
    requires Proc.ImageMapped(w, w2, root, v, f, perms)
    ensures Does(w, w2, root, ImageOps(v, f, perms))
  {
    forall q: nat | q < ALL_PAGES ensures Walk(w2, root, q) == LastSays(ImageOps(v, f, perms), q, Walk(w, root, q)) {
      ImageSays(v, f, perms, q, Walk(w, root, q));
    }
  }

  /** A copied address space with nothing mapped yet. */
  lemma NewMemory(w0: Words, w: Words, kroot: nat, krole: Roles, root: nat, role: Roles, free0: set<nat>, free: set<nat>,
                  frames: seq<nat>, live: set<nat>)
    requires Building(w0, w, kroot, krole, role, free0, free, frames)
    requires forall p: nat :: p < ALL_PAGES ==> Walk(w, root, p) == Supervisor(Walk(w0, kroot, p))
    requires NoUserPage(w0, kroot) && Tree(w, root, role) && (forall x :: x in free0 ==> x < FRAME_COUNT)
    ensures var m := Memory(root, role, frames, []);
            Owns(w, m, live) && Agrees(w, m)
    ensures forall p: nat :: p < ALL_PAGES ==> Walk(w, root, p) == Walk(w0, kroot, p)
  {
    forall x | x in frames ensures x < FRAME_COUNT {
      assert x in SetOf(frames);
    }
    forall p: nat | p < ALL_PAGES ensures Walk(w, root, p) == Walk(w0, kroot, p) {
    }
  }

  /** The kernel's tree after a process's tables, all taken from the free frames,
      were written. */
  lemma KernelSafe(w: Words, w2: Words, kroot: nat, krole: Roles, free: set<nat>, s: set<nat>)
    requires Tree(w, kroot, krole) && krole.Keys !! free && s <= free && SameOutside(w, w2, s)
    ensures Tree(w2, kroot, krole) && SameWalks(w, w2, kroot)
  {
    UntouchedTree(w, w2, kroot, krole, s);
  }

  /** Frames moved between the free set and the process only, and only table frames
      that were free or the process's were written. */
  ghost predicate Moved(w: Words, free: set<nat>, m: Memory, w2: Words, free2: set<nat>, m2: Memory) {
    && m2.root == m.root && SetOf(m2.frames) + free2 == SetOf(m.frames) + free && SetOf(m2.frames) !! free2
    && SameOutside(w, w2, SetOf(m.frames) + free)
  }

  lemma LocalMoves(w: Words, free: set<nat>, m: Memory, w2: Words, free2: set<nat>, m2: Memory)
    requires Local(w, free, m, w2, free2, m2)
    ensures Moved(w, free, m, w2, free2, m2)
  {
    forall x | x in SetOf(m2.frames) ensures x in SetOf(m.frames) + free {
      assert x !in SetOf(m.frames) ==> x in SetOf(m2.frames) - SetOf(m.frames);
    }
    forall f, k | f !in SetOf(m.frames) + free ensures Rd(w2, f, k) == Rd(w, f, k) {
      assert f !in SetOf(m2.frames);
    }
  }

  lemma MovedTrans(w: Words, f: set<nat>, m: Memory, w2: Words, f2: set<nat>, m2: Memory, w3: Words, f3: set<nat>, m3: Memory)
    requires Moved(w, f, m, w2, f2, m2) && Moved(w2, f2, m2, w3, f3, m3)
    ensures Moved(w, f, m, w3, f3, m3)
  {
    forall g, k | g !in SetOf(m.frames) + f ensures Rd(w3, g, k) == Rd(w, g, k) {
      assert Rd(w3, g, k) == Rd(w2, g, k);
    }
  }

  /** The steps that set a process up. */
  ghost function SetupOps(v: nat, f: nat, perms: seq<Perm>, low: nat, base: nat, native: bool, stub: nat): Log
    requires low <= STACK_TOP_PAGE
  {
    ImageOps(v, f, perms) + [MapOp(low, base, STACK_TOP_PAGE - low, UserPerm(true, false))]
    + (if native then [MapOp(STACK_TOP_PAGE, stub, 1, UserPerm(false, true))] else [])
  }

  /** Image and stack shown. */
  lemma ViewAfter(w1: Words, w2: Words, w3: Words, root: nat, v: nat, f: nat, perms: seq<Perm>, low: nat, base: nat)
    requires forall q: nat :: q < ALL_PAGES ==> !UserPage(w1, root, q)
    requires forall i :: 0 <= i < |perms| ==> perms[i].user
    requires v + |perms| <= PAGES && STACK_LOW_PAGE <= low < STACK_TOP_PAGE
    requires Proc.ImageMapped(w1, w2, root, v, f, perms)
    requires Mapped(w2, w3, root, low, base, STACK_TOP_PAGE - low, UserPerm(true, false))
    ensures InitialView(w1, root, w3, root, v, |perms|, low, false)
    ensures Does(w1, w3, root, SetupOps(v, f, perms, low, base, false, 0))
  {
    forall q: nat | q < ALL_PAGES ensures UserPage(w3, root, q) <==> Initial(q, v, |perms|, low, false) {
      assert !UserPage(w1, root, q);
      if v <= q < v + |perms| {
        assert perms[q - v].user;
        assert Walk(w2, root, q) == Proc.PageWith(f + (q - v), perms[q - v]);
      } else {
        assert Walk(w2, root, q) == Walk(w1, root, q);
      }
    }
    DoesImage(w1, w2, root, v, f, perms);
    DoesMap(w2, w3, root, low, base, STACK_TOP_PAGE - low, UserPerm(true, false));
    var stack := [MapOp(low, base, STACK_TOP_PAGE - low, UserPerm(true, false))];
    DoesTrans(w1, w2, w3, root, ImageOps(v, f, perms), stack);
    assert ImageOps(v, f, perms) + stack + [] == ImageOps(v, f, perms) + stack;
  }

  /** And the stub. */
  lemma StubView(w: Words, kroot: nat, w3: Words, w4: Words, root: nat, v: nat, f: nat, perms: seq<Perm>, low: nat, base: nat, stub: nat)
    requires low <= STACK_TOP_PAGE && InitialView(w, kroot, w3, root, v, |perms|, low, false) && Explained(w3, root, SetupOps(v, f, perms, low, base, false, 0), w, root)
    requires Mapped(w3, w4, root, STACK_TOP_PAGE, stub, 1, UserPerm(false, true))
    ensures InitialView(w, kroot, w4, root, v, |perms|, low, true)
    ensures Does(w, w4, root, SetupOps(v, f, perms, low, base, true, stub))
  {
    forall q: nat | q < ALL_PAGES
      ensures UserPage(w4, root, q) <==> Initial(q, v, |perms|, low, true)
      ensures !Initial(q, v, |perms|, low, true) ==> Walk(w4, root, q) == Walk(w, kroot, q)
    {
      assert UserPage(w3, root, q) <==> Initial(q, v, |perms|, low, false);
    }
    DoesMap(w3, w4, root, STACK_TOP_PAGE, stub, 1, UserPerm(false, true));
    var first, last := SetupOps(v, f, perms, low, base, false, 0), [MapOp(STACK_TOP_PAGE, stub, 1, UserPerm(false, true))];
    DoesTrans(w, w3, w4, root, first, last);
    assert SetupOps(v, f, perms, low, base, true, stub) == first + last;
  }

  /** The image leaves the stack region clear. */
  lemma StackClear(w1: Words, w2: Words, m: Memory, v: nat, f: nat, perms: seq<Perm>)
    requires forall q: nat :: q < ALL_PAGES ==> !UserPage(w1, m.root, q)
    requires ImageClear(v, |perms|) && Proc.ImageMapped(w1, w2, m.root, v, f, perms) && m.maps == [Mapping(v, f, |perms|, None)]
    ensures Clear(m, STACK_LOW_PAGE, STACK_MAX_PAGES) && Proc.NoUserIn(w2, m.root, STACK_LOW_PAGE, STACK_TOP_PAGE)
  {
    forall q: nat | STACK_LOW_PAGE <= q < STACK_TOP_PAGE ensures !UserPage(w2, m.root, q) {
      assert !UserPage(w1, m.root, q);
    }
  }

  /** Every image page is for ring 3, and the stack starts inside its region. */
  predicate ImageOk(perms: seq<Perm>, low: nat) {
    (forall i :: 0 <= i < |perms| ==> perms[i].user) && STACK_LOW_PAGE <= low < STACK_TOP_PAGE
  }

  /** The image stays clear of the pages reserved for stack and stub. */
  predicate ImageClear(v: nat, n: nat) { v + n <= STACK_LOW_PAGE || STACK_TOP_PAGE < v }

  /** Image, then stack. */
  method Populate(p: Proc, pt: PageTables, v: nat, perms: seq<Perm>, low: nat, ghost live: set<nat>)
    returns (ok: bool, ghost f: nat)
    requires p.Ok(pt, live) && p.maps == [] && (forall q: nat :: q < ALL_PAGES ==> !UserPage(pt.words, p.root, q)) && ImageOk(perms, low)
    modifies p, pt, pt.pmm.bits
    ensures p.Holds(pt) && Moved(old(pt.words), old(pt.pmm.Free()), old(p.Mem()), pt.words, pt.pmm.Free(), p.Mem())
    ensures p.heapStart == old(p.heapStart) && p.heapEnd == old(p.heapEnd) && p.mmapNext == old(p.mmapNext)
    ensures ok ==>
              p.Ok(pt, live) && p.stackLow == low && SetUp(old(pt.words), p.root, pt.words, p.Mem(), v, f, perms, low, p.stackBase, false, 0)
  {
    ghost var w1, free1, m1 := pt.words, pt.pmm.Free(), p.Mem();
    var image;
    ok, image := p.LoadImage(pt, v, perms, live);
    f := image;
    ghost var w2, free2, m2 := pt.words, pt.pmm.Free(), p.Mem();
    LocalMoves(w1, free1, m1, w2, free2, m2);
    if ok {
      if ImageClear(v, |perms|) {
        StackClear(w1, w2, m2, v, f, perms);
      }
      ok := p.SetupStack(pt, low, live);
      assert Moved(w2, free2, m2, pt.words, pt.pmm.Free(), p.Mem());
      MovedTrans(w1, free1, m1, w2, free2, m2, pt.words, pt.pmm.Free(), p.Mem());
      if ok {
        Stacked(w1, w2, pt.words, p.Mem(), v, f, perms, low, p.stackBase);
      }
    }
  }

  lemma Stacked(w1: Words, w2: Words, w3: Words, m: Memory, v: nat, f: nat, perms: seq<Perm>, low: nat, base: nat)
    requires (forall q: nat :: q < ALL_PAGES ==> !UserPage(w1, m.root, q)) && ImageOk(perms, low) && v + |perms| <= PAGES
    requires Proc.ImageMapped(w1, w2, m.root, v, f, perms)
    requires Mapped(w2, w3, m.root, low, Proc.StackFrame(base, low), STACK_TOP_PAGE - low, UserPerm(true, false))
    requires m.maps == [Mapping(v, f, |perms|, None)] + [Proc.StackRange(base)] && (ImageClear(v, |perms|) ==> Agrees(w3, m))
    ensures SetUp(w1, m.root, w3, m, v, f, perms, low, base, false, 0)
  {
    ViewAfter(w1, w2, w3, m.root, v, f, perms, low, Proc.StackFrame(base, low));
  }

  /** Then the exit stub of a native process. */
  method Furnish(p: Proc, pt: PageTables, v: nat, perms: seq<Perm>, low: nat, native: bool, ghost live: set<nat>)
    returns (ok: bool, ghost f: nat, ghost stub: nat)
    requires p.Ok(pt, live) && p.maps == [] && (forall q: nat :: q < ALL_PAGES ==> !UserPage(pt.words, p.root, q)) && ImageOk(perms, low)
    modifies p, pt, pt.pmm.bits
    ensures p.Holds(pt) && Moved(old(pt.words), old(pt.pmm.Free()), old(p.Mem()), pt.words, pt.pmm.Free(), p.Mem())
    ensures p.heapStart == old(p.heapStart) && p.heapEnd == old(p.heapEnd) && p.mmapNext == old(p.mmapNext)
    ensures ok ==> p.Ok(pt, live) && p.stackLow == low && SetUp(old(pt.words), p.root, pt.words, p.Mem(), v, f, perms, low, p.stackBase, native, stub)
  {
    ghost var w1, free1, m1 := pt.words, pt.pmm.Free(), p.Mem();
    ok, f := Populate(p, pt, v, perms, low, live);
    stub := 0;
    if ok && native {
      ghost var w3, free3, m3 := pt.words, pt.pmm.Free(), p.Mem();
      ok, stub := AddStub(p, pt, w1, v, f, perms, low, live);
      MovedTrans(w1, free1, m1, w3, free3, m3, pt.words, pt.pmm.Free(), p.Mem());
    }
  }

  method AddStub(p: Proc, pt: PageTables, ghost w: Words, ghost v: nat, ghost f: nat, ghost perms: seq<Perm>, ghost low: nat, ghost live: set<nat>)
    returns (ok: bool, ghost stub: nat)
    requires p.Ok(pt, live) && ImageOk(perms, low) && SetUp(w, p.root, pt.words, p.Mem(), v, f, perms, low, p.stackBase, false, 0)
    modifies p`frames, p`maps, p`role, pt, pt.pmm.bits
    ensures p.Holds(pt) && Moved(old(pt.words), old(pt.pmm.Free()), old(p.Mem()), pt.words, pt.pmm.Free(), p.Mem())
    ensures ok ==> p.Ok(pt, live) && SetUp(w, p.root, pt.words, p.Mem(), v, f, perms, low, p.stackBase, true, stub)
  {
    ghost var w3, free3, m3 := pt.words, pt.pmm.Free(), p.Mem();
    ghost var k;
    ok, stub, k := p.MapStub(pt, live);
    LocalMoves(w3, free3, m3, pt.words, pt.pmm.Free(), p.Mem());
    if ok {
      Stubbed(w, w3, m3, pt.words, p.Mem(), v, f, perms, low, p.stackBase, stub, k);
    }
  }

  /** What a new process has recorded and reaches, starting from the map `kroot`: its page
      table shows what the steps that set it up say, and agrees with its records when the image is clear of the reserved pages. */
  ghost predicate SetUp(w: Words, kroot: nat, w2: Words, m: Memory, v: nat, f: nat, perms: seq<Perm>, low: nat, base: nat, native: bool, stub: nat)
    requires STACK_LOW_PAGE <= low <= STACK_TOP_PAGE
  {
    && m.maps == InitialMaps(v, f, |perms|, base, native, stub) && (ImageClear(v, |perms|) ==> Agrees(w2, m))
    && InitialView(w, kroot, w2, m.root, v, |perms|, low, native)
    && Explained(w2, m.root, SetupOps(v, f, perms, low, Proc.StackFrame(base, low), native, stub), w, kroot)
  }

  function InitialMaps(v: nat, f: nat, n: nat, base: nat, native: bool, stub: nat): seq<Mapping> {
    [Mapping(v, f, n, None), Proc.StackRange(base)] + (if native then [Mapping(STACK_TOP_PAGE, stub, 1, None)] else [])
  }

  lemma Stubbed(w: Words, w3: Words, m3: Memory, w4: Words, m4: Memory, v: nat, f: nat, perms: seq<Perm>, low: nat, base: nat, stub: nat, k: nat)
    requires ImageOk(perms, low) && SetUp(w, m3.root, w3, m3, v, f, perms, low, base, false, 0) && m4.root == m3.root
    requires RangeMapped(w3, m3, w4, m4, Mapping(STACK_TOP_PAGE, stub, 1, None), k, UserPerm(false, true), true)
    ensures SetUp(w, m3.root, w4, m4, v, f, perms, low, base, true, stub)
  {
    if ImageClear(v, |perms|) {
      StubClear(m3, v, f, perms, base);
    }
    StubView(w, m3.root, w3, w4, m3.root, v, f, perms, low, Proc.StackFrame(base, low), stub);
  }

  /** The page above the stack is not recorded yet. */
  lemma StubClear(m: Memory, v: nat, f: nat, perms: seq<Perm>, base: nat)
    requires ImageClear(v, |perms|) && m.maps == InitialMaps(v, f, |perms|, base, false, 0)
    ensures Clear(m, STACK_TOP_PAGE, 1)
  {
  }

  /** Creates a process with an image of |perms| user pages at page `v` and the
      stack mapped from page `low` on, natively with an exit stub. It starts from the
      kernel's map, reaches exactly its initial pages, and owns frames that were free;
      when anything fails the free frames are exactly what they were. */
  method SpawnProcess(pt: PageTables, kroot: nat, ghost krole: Roles, v: nat, perms: seq<Perm>, low: nat, native: bool,
                      heapStart: nat, ghost live: set<nat>)
    returns (p: Proc?, ghost f: nat, ghost stub: nat)
    requires pt.Valid() && Tree(pt.words, kroot, krole) && krole.Keys !! pt.pmm.Free() && live !! pt.pmm.Free()
    requires NoUserPage(pt.words, kroot) && ImageOk(perms, low)
    modifies pt, pt.pmm.bits
    ensures Tree(pt.words, kroot, krole) && SameWalks(old(pt.words), pt.words, kroot)
    ensures SameOutside(old(pt.words), pt.words, old(pt.pmm.Free()))
    ensures p == null ==> pt.pmm.Free() == old(pt.pmm.Free())
    ensures p != null ==>
              && fresh(p) && p.Ok(pt, live) && p.stackLow == low && p.heapStart == heapStart && p.heapEnd == heapStart * PAGE_SIZE && p.mmapNext == MMAP_BASE
              && SetOf(p.frames) <= old(pt.pmm.Free()) && pt.pmm.Free() == old(pt.pmm.Free()) - SetOf(p.frames)
              && SetUp(old(pt.words), kroot, pt.words, p.Mem(), v, f, perms, low, p.stackBase, native, stub)
  {
    ghost var w0, free0 := pt.words, pt.pmm.Free();
    var root, frames, role := BuildAddressSpace(pt, kroot, krole);
    p := new Proc(if root.Some? then root.value else 0, role, frames, heapStart);
    ghost var w1, free1, m1 := pt.words, pt.pmm.Free(), p.Mem();
    BuiltHolds(w0, w1, kroot, krole, role, free0, free1, frames);
    var ok := false;
    f, stub := 0, 0;
    if root.Some? {
      NewMemory(w0, w1, kroot, krole, root.value, role, free0, free1, frames, live);
      ok, f, stub := Furnish(p, pt, v, perms, low, native, live);
      Undo(w0, free0, kroot, krole, w1, free1, m1, pt.words, pt.pmm.Free(), p.Mem());
      if ok {
        FromKernel(w0, kroot, w1, pt.words, p.Mem(), v, f, perms, low, p.stackBase, native, stub);
      }
    }
    if !ok {
      p.FreeProcess(pt);
      p := null;
    }
  }

  lemma FromKernel(w0: Words, kroot: nat, w1: Words, w2: Words, m: Memory, v: nat, f: nat, perms: seq<Perm>, low: nat, base: nat,
                   native: bool, stub: nat)
    requires STACK_LOW_PAGE <= low <= STACK_TOP_PAGE && SetUp(w1, m.root, w2, m, v, f, perms, low, base, native, stub)
    requires forall p: nat :: p < ALL_PAGES ==> Walk(w1, m.root, p) == Walk(w0, kroot, p)
    ensures SetUp(w0, kroot, w2, m, v, f, perms, low, base, native, stub)
  {
  }

  lemma BuiltHolds(w0: Words, w: Words, kroot: nat, krole: Roles, role: Roles, free0: set<nat>, free: set<nat>, frames: seq<nat>)
    requires Building(w0, w, kroot, krole, role, free0, free, frames) && (forall x :: x in free0 ==> x < FRAME_COUNT)
    ensures Distinct(frames) && (forall x :: x in frames ==> x < FRAME_COUNT) && free !! SetOf(frames) && free + SetOf(frames) == free0
    ensures SameOutside(w0, w, free0)
  {
    forall x | x in frames ensures x < FRAME_COUNT {
      assert x in SetOf(frames);
    }
  }

  lemma Undo(w0: Words, free0: set<nat>, kroot: nat, krole: Roles, w1: Words, free1: set<nat>, m1: Memory,
             w2: Words, free2: set<nat>, m2: Memory)
    requires Tree(w0, kroot, krole) && krole.Keys !! free0
    requires SameOutside(w0, w1, free0) && SetOf(m1.frames) + free1 == free0
    requires Moved(w1, free1, m1, w2, free2, m2)
    ensures SetOf(m2.frames) <= free0 && free2 == free0 - SetOf(m2.frames) && free2 + SetOf(m2.frames) == free0
    ensures SameOutside(w0, w2, free0) && Tree(w2, kroot, krole) && SameWalks(w0, w2, kroot)
  {
    forall f, k | f !in free0 ensures Rd(w2, f, k) == Rd(w0, f, k) {
      assert Rd(w2, f, k) == Rd(w1, f, k);
    }
    KernelSafe(w0, w2, kroot, krole, free0, free0);
  }
}
