/** A process's private address space: a deep copy of the kernel's map
    (src/process.rs:832-891). */
module AddressSpace {
  import opened Wrappers
  import opened Pmm
  import opened PageTable
  import opened Paging

  /** Kernel directory entry `ke` and its copy `e`: 2 MiB entries verbatim,
      page tables duplicated word for word into a frame of their own. */
  ghost predicate PdeCopied(w: Words, ke: Entry, e: Entry, i: nat, j: nat, role: Roles) {
    if !ke.present then !e.present
    else if ke.ps then e == ke
    else
      && e == ke.(pfn := e.pfn, nx := false)
      && e.pfn in role && role[e.pfn] == RPt(i, j)
      && forall k: nat :: k < 512 ==> Rd(w, e.pfn, k) == Rd(w, ke.pfn, k)
  }

  ghost predicate PdCopied(w: Words, kpd: nat, pd: nat, i: nat, role: Roles, n: nat) {
    forall j: nat :: j < n ==> PdeCopied(w, Rd(w, kpd, j), Rd(w, pd, j), i, j, role)
  }

  ghost predicate PdpteCopied(w: Words, ke: Entry, e: Entry, i: nat, role: Roles) {
    if !ke.present then !e.present
    else
      && e == ke.(pfn := e.pfn, nx := false)
      && e.pfn in role && role[e.pfn] == RPd(i)
      && PdCopied(w, ke.pfn, e.pfn, i, role, 512)
  }

  ghost predicate PdptCopied(w: Words, kpdpt: nat, pdpt: nat, role: Roles, n: nat) {
    forall i: nat :: i < n ==> PdpteCopied(w, Rd(w, kpdpt, i), Rd(w, pdpt, i), i, role)
  }

  /** The whole copy. The new PML4 entry is supervisor-only. */
  ghost predicate Copied(w: Words, kroot: nat, root: nat, role: Roles) {
    && root in role && role[root] == RPml4
    && (forall i: nat :: 1 <= i < 512 ==> Rd(w, root, i) == Rd(w, kroot, i))
    && Rd(w, root, 0) == Entry(Pdpt(w, root), true, true, false, false, false)
    && Pdpt(w, root) in role && role[Pdpt(w, root)] == RPdpt
    && PdptCopied(w, Pdpt(w, kroot), Pdpt(w, root), role, 512)
  }

  /** No page of the address space is reachable from ring 3. */
  ghost predicate NoUserPage(w: Words, root: nat) {
    forall p: nat :: p < ALL_PAGES && Walk(w, root, p).Some? ==> !Walk(w, root, p).value.user
  }

  function Supervisor(o: Option<Page>): Option<Page> {
    if o.None? then None else Some(o.value.(user := false))
  }

  lemma CopyPde(w: Words, kroot: nat, krole: Roles, root: nat, role: Roles, i: nat, j: nat)
    requires Tree(w, kroot, krole) && Copied(w, kroot, root, role) && i < 4 && j < 512
    ensures Dir(Pdpte(w, root, i)) && Pd(w, root, i) in role && role[Pd(w, root, i)] == RPd(i)
    ensures PdeCopied(w, Pde(w, kroot, i, j), Pde(w, root, i, j), i, j, role)
    ensures PdeOk(Pde(w, kroot, i, j), i, j, krole) && PdeOk(Pde(w, root, i, j), i, j, role)
  {
    assert PdpteCopied(w, Pdpte(w, kroot, i), Pdpte(w, root, i), i, role);
    assert PdCopied(w, Pd(w, kroot, i), Pd(w, root, i), i, role, 512);
  }

  lemma CopyShape(w: Words, kroot: nat, krole: Roles, root: nat, role: Roles)
    requires Tree(w, kroot, krole) && Copied(w, kroot, root, role)
    ensures Upper(w, root, role) && Lower(w, root, role)
  {
    forall i | 0 <= i < 4
      ensures Dir(Pdpte(w, root, i)) && Pd(w, root, i) in role && role[Pd(w, root, i)] == RPd(i)
    {
      CopyPde(w, kroot, krole, root, role, i, 0);
    }
    forall i | 4 <= i < 512 ensures !Pdpte(w, root, i).present {
      assert PdpteCopied(w, Pdpte(w, kroot, i), Pdpte(w, root, i), i, role);
    }
    forall i, j | 0 <= i < 4 && 0 <= j < 512 ensures PdeOk(Pde(w, root, i, j), i, j, role) {
      CopyPde(w, kroot, krole, root, role, i, j);
    }
  }

  /** The copy translates every address as the kernel's map does, with nothing
      exposed to ring 3, whatever the kernel's map itself exposes. */
  lemma CopyWalk(w: Words, kroot: nat, krole: Roles, root: nat, role: Roles, p: nat)
    requires Tree(w, kroot, krole) && Copied(w, kroot, root, role) && p < ALL_PAGES
    ensures Walk(w, root, p) == Supervisor(Walk(w, kroot, p))
  {
    Levels(p);
    if p < PAGES {
      CopyPde(w, kroot, krole, root, role, L3(p), L2(p));
      assert Rd(w, kroot, 0).writable && !Rd(w, kroot, 0).nx;
      assert Dir(Pdpte(w, kroot, L3(p)));
    } else if L4(p) == 0 {
      assert PdpteCopied(w, Pdpte(w, kroot, L3(p)), Pdpte(w, root, L3(p)), L3(p), role);
    } else {
      assert Rd(w, root, L4(p)) == Rd(w, kroot, L4(p));
    }
  }

  /** A 4 KiB leaf of the kernel's map with USER set is a user page. */
  lemma UserLeafWalks(w: Words, kroot: nat, krole: Roles, i: nat, j: nat, k: nat)
    requires Tree(w, kroot, krole) && i < 4 && j < 512 && k < 512
    requires !Pde(w, kroot, i, j).ps && Pte(w, kroot, i, j, k).present && Pte(w, kroot, i, j, k).user
    ensures var p := (i * 512 + j) * 512 + k;
            p < PAGES && Walk(w, kroot, p).Some? && Walk(w, kroot, p).value.user
  {
    var p := (i * 512 + j) * 512 + k;
    assert p / 512 == i * 512 + j && p % 512 == k;
    assert p / 512 / 512 == i && p / 512 % 512 == j;
    WalkIsLeaf(w, kroot, krole, p);
  }

  /** The copy is a tree in which later USER promotions uncover nothing, exactly
      when the kernel's map had no user page at the time of the copy. */
  lemma CopyTree(w: Words, kroot: nat, krole: Roles, root: nat, role: Roles)
    requires Tree(w, kroot, krole) && Copied(w, kroot, root, role)
    ensures Tree(w, root, role) <==> NoUserPage(w, kroot)
  {
    CopyShape(w, kroot, krole, root, role);
    if NoUserPage(w, kroot) {
      forall i, j, k | 0 <= i < 4 && 0 <= j < 512 && 0 <= k < 512
                       && !Pde(w, root, i, j).ps && Pte(w, root, i, j, k).present && Pte(w, root, i, j, k).user
        ensures false
      {
        CopyPde(w, kroot, krole, root, role, i, j);
        UserLeafWalks(w, kroot, krole, i, j, k);
      }
    }
    if Tree(w, root, role) {
      forall p: nat | p < ALL_PAGES && Walk(w, kroot, p).Some? ensures !Walk(w, kroot, p).value.user {
        Levels(p);
        WalkIsLeaf(w, kroot, krole, p);
        CopyPde(w, kroot, krole, root, role, L3(p), L2(p));
        if !Pde(w, kroot, L3(p), L2(p)).ps {
          assert Pte(w, root, L3(p), L2(p), L1(p)) == Pte(w, kroot, L3(p), L2(p), L1(p));
        }
      }
    }
  }

  // ---- building the copy ---------------------------------------------------------

  /** Frames taken so far by the builder: each has a place, came from the free
      frames, and only these frames were written. */
  ghost predicate Taken(w: Words, w2: Words, role: Roles, free: set<nat>, free2: set<nat>, frames: seq<nat>) {
    && role.Keys == SetOf(frames) && Distinct(frames)
    && SetOf(frames) <= free && free2 == free - SetOf(frames)
    && SameOutside(w, w2, SetOf(frames))
  }

  lemma TakenOne(w: Words, w2: Words, w3: Words, role: Roles, free: set<nat>, free2: set<nat>, frames: seq<nat>, g: nat, r: Role)
    requires Taken(w, w2, role, free, free2, frames) && g in free2 && SameOutside(w2, w3, {g})
    ensures Taken(w, w3, role[g := r], free, free2 - {g}, frames + [g])
  {
    assert SetOf(frames + [g]) == SetOf(frames) + {g};
    assert g !in SetOf(frames);
    forall a, b | 0 <= a < b < |frames + [g]| ensures (frames + [g])[a] != (frames + [g])[b] {
      assert frames[a] in SetOf(frames);
    }
    forall f, k | f !in SetOf(frames + [g]) ensures Rd(w3, f, k) == Rd(w, f, k) {
      assert Rd(w3, f, k) == Rd(w2, f, k);
    }
  }

  lemma TakenWrite(w: Words, w2: Words, w3: Words, role: Roles, free: set<nat>, free2: set<nat>, frames: seq<nat>, g: nat)
    requires Taken(w, w2, role, free, free2, frames) && g in role && SameOutside(w2, w3, {g})
    ensures Taken(w, w3, role, free, free2, frames)
  {
    forall f, k | f !in SetOf(frames) ensures Rd(w3, f, k) == Rd(w, f, k) {
      assert Rd(w3, f, k) == Rd(w2, f, k);
    }
  }

  /** No frame the allocator may hand out is left. */
  ghost predicate Exhausted(pt: PageTables)
    requires pt.Valid()
    reads pt, pt.pmm, pt.pmm.bits
  {
    forall f: nat :: f in pt.pmm.Free() ==> f > pt.pmm.last
  }

  /** A fresh, zeroed frame. */
  method AllocFrame(pt: PageTables) returns (g: Option<nat>)
    requires pt.Valid()
    modifies pt, pt.pmm.bits
    ensures g.None? ==> pt.words == old(pt.words) && pt.pmm.Free() == old(pt.pmm.Free()) && Exhausted(pt)
    ensures g.Some? ==>
              && g.value in old(pt.pmm.Free()) && pt.pmm.Free() == old(pt.pmm.Free()) - {g.value}
              && SameOutside(old(pt.words), pt.words, {g.value})
              && forall k: nat :: k < 512 ==> Rd(pt.words, g.value, k) == EMPTY
  {
    g := pt.pmm.FrameAlloc();
    if g.Some? {
      var k := 0;
      while k < 512
        invariant k <= 512
        invariant pt.pmm.Free() == old(pt.pmm.Free()) - {g.value}
        invariant SameOutside(old(pt.words), pt.words, {g.value})
        invariant forall x: nat :: x < k ==> Rd(pt.words, g.value, x) == EMPTY
      {
        pt.words := Wr(pt.words, g.value, k, EMPTY);
        k := k + 1;
      }
    }
  }

  /** Copies the 512 words of table `src` over table `dst`. */
  method CopyTable(pt: PageTables, src: nat, dst: nat)
    requires src != dst
    modifies pt`words
    ensures SameOutside(old(pt.words), pt.words, {dst})
    ensures forall k: nat :: k < 512 ==> Rd(pt.words, dst, k) == Rd(old(pt.words), src, k)
  {
    var k := 0;
    while k < 512
      invariant k <= 512
      invariant SameOutside(old(pt.words), pt.words, {dst})
      invariant forall x: nat :: x < k ==> Rd(pt.words, dst, x) == Rd(old(pt.words), src, x)
    {
      pt.words := Wr(pt.words, dst, k, Rd(pt.words, src, k));
      k := k + 1;
    }
  }

  /** `role2` places more frames than `role` and keeps the old places. */
  ghost predicate Extends(role: Roles, role2: Roles) {
    forall f :: f in role ==> f in role2 && role2[f] == role[f]
  }

  /** What the builder has at hand: the kernel's tree, untouched, and the frames
      taken so far. */
  ghost predicate Building(w0: Words, w: Words, kroot: nat, krole: Roles, role: Roles,
                           free0: set<nat>, free: set<nat>, frames: seq<nat>) {
    && Tree(w0, kroot, krole) && krole.Keys !! free0
    && Taken(w0, w, role, free0, free, frames)
  }

  lemma KernelUntouched(w0: Words, w: Words, kroot: nat, krole: Roles, role: Roles,
                        free0: set<nat>, free: set<nat>, frames: seq<nat>)
    requires Building(w0, w, kroot, krole, role, free0, free, frames)
    ensures Tree(w, kroot, krole) && SameWalks(w0, w, kroot) && krole.Keys !! role.Keys
    ensures forall f, k :: f in krole ==> Rd(w, f, k) == Rd(w0, f, k)
  {
    UntouchedTree(w0, w, kroot, krole, SetOf(frames));
  }

  /** The first `n` directories stay copied when only fresh frames and later
      directories are written. */
  lemma PdptStable(w: Words, w2: Words, kroot: nat, krole: Roles, pdpt: nat, role: Roles, role2: Roles, n: nat, s: set<nat>)
    requires Tree(w, kroot, krole) && n <= 512 && krole.Keys !! s && SameOutside(w, w2, s) && Extends(role, role2)
    requires forall f :: f in s && f in role ==> role[f].RPd? && role[f].i >= n
    requires pdpt in role && role[pdpt] == RPdpt
    requires PdptCopied(w, Pdpt(w, kroot), pdpt, role, n)
    ensures PdptCopied(w2, Pdpt(w, kroot), pdpt, role2, n)
  {
    forall i: nat | i < n ensures PdpteCopied(w2, Rd(w2, Pdpt(w, kroot), i), Rd(w2, pdpt, i), i, role2) {
      var ke, e := Rd(w, Pdpt(w, kroot), i), Rd(w, pdpt, i);
      assert PdpteCopied(w, ke, e, i, role);
      assert ke == Pdpte(w, kroot, i);
      if ke.present {
        assert i < 4 && ke.pfn == Pd(w, kroot, i);
        forall j: nat | j < 512 ensures PdeCopied(w2, Rd(w2, ke.pfn, j), Rd(w2, e.pfn, j), i, j, role2) {
          assert PdeCopied(w, Rd(w, ke.pfn, j), Rd(w, e.pfn, j), i, j, role);
          assert PdeOk(Pde(w, kroot, i, j), i, j, krole);
        }
      }
    }
  }

  /** Copies directory entry `j`. */
  method CopyOnePde(pt: PageTables, kpd: nat, pd: nat, i: nat, j: nat, frames: seq<nat>,
                    ghost role: Roles, ghost kroot: nat, ghost krole: Roles, ghost w0: Words, ghost free0: set<nat>)
    returns (ok: bool, frames2: seq<nat>, ghost role2: Roles)
    requires pt.Valid() && i < 4 && j < 512
    requires Building(w0, pt.words, kroot, krole, role, free0, pt.pmm.Free(), frames)
    requires kpd == Pd(w0, kroot, i) && pd in role && role[pd] == RPd(i)
    requires PdCopied(pt.words, kpd, pd, i, role, j)
    requires forall k: nat :: j <= k < 512 ==> Rd(pt.words, pd, k) == EMPTY
    modifies pt, pt.pmm.bits
    ensures Building(w0, pt.words, kroot, krole, role2, free0, pt.pmm.Free(), frames2)
    ensures Extends(role, role2) && SameOutside(old(pt.words), pt.words, {pd} + (role2.Keys - role.Keys))
    ensures ok ==> PdCopied(pt.words, kpd, pd, i, role2, j + 1)
    ensures !ok ==> Exhausted(pt)
    ensures ok ==> forall k: nat :: j < k < 512 ==> Rd(pt.words, pd, k) == EMPTY
  {
    ok, frames2, role2 := true, frames, role;
    KernelUntouched(w0, pt.words, kroot, krole, role, free0, pt.pmm.Free(), frames);
    var pde := Rd(pt.words, kpd, j);
    assert pde == Pde(w0, kroot, i, j) && PdeOk(pde, i, j, krole);
    if !pde.present {
      assert false;
      return;
    }
    ghost var w1 := pt.words;
    if pde.ps {
      pt.words := Wr(pt.words, pd, j, pde);
      TakenWrite(w0, w1, pt.words, role, free0, pt.pmm.Free(), frames, pd);
      PdStep(w1, pt.words, kroot, krole, kpd, pd, i, j, role, role, {pd});
      return;
    }
    var g := AllocFrame(pt);
    if g.None? {
      return false, frames, role;
    }
    ghost var w2 := pt.words;
    CopyTable(pt, pde.pfn, g.value);
    ghost var w3 := pt.words;
    assert SameOutside(w1, w3, {g.value});
    TakenOne(w0, w1, w3, role, free0, old(pt.pmm.Free()), frames, g.value, RPt(i, j));
    frames2, role2 := frames + [g.value], role[g.value := RPt(i, j)];
    pt.words := Wr(pt.words, pd, j, pde.(pfn := g.value, nx := false));
    TakenWrite(w0, w3, pt.words, role2, free0, pt.pmm.Free(), frames2, pd);
    assert role2.Keys - role.Keys == {g.value};
    PdStep(w1, pt.words, kroot, krole, kpd, pd, i, j, role, role2, {pd, g.value});
  }

  lemma PdStep(w: Words, w2: Words, kroot: nat, krole: Roles, kpd: nat, pd: nat, i: nat, j: nat, role: Roles, role2: Roles, s: set<nat>)
    requires Tree(w, kroot, krole) && i < 4 && j < 512 && kpd == Pd(w, kroot, i)
    requires krole.Keys !! s && SameOutside(w, w2, s) && Extends(role, role2)
    requires forall f :: f in s && f in role ==> f == pd
    requires pd in role && role[pd] == RPd(i)
    requires forall k: nat :: k != j ==> Rd(w2, pd, k) == Rd(w, pd, k)
    requires PdCopied(w, kpd, pd, i, role, j)
    requires PdeCopied(w2, Rd(w2, kpd, j), Rd(w2, pd, j), i, j, role2)
    ensures PdCopied(w2, kpd, pd, i, role2, j + 1)
  {
    forall k: nat | k < j ensures PdeCopied(w2, Rd(w2, kpd, k), Rd(w2, pd, k), i, k, role2) {
      assert PdeCopied(w, Rd(w, kpd, k), Rd(w, pd, k), i, k, role);
      assert PdeOk(Pde(w, kroot, i, k), i, k, krole);
    }
  }

  /** The inner loop: copies a whole page directory. */
  method CopyPd(pt: PageTables, kpd: nat, pd: nat, i: nat, frames: seq<nat>,
                ghost role: Roles, ghost kroot: nat, ghost krole: Roles, ghost w0: Words, ghost free0: set<nat>)
    returns (ok: bool, frames2: seq<nat>, ghost role2: Roles)
    requires pt.Valid() && i < 4
    requires Building(w0, pt.words, kroot, krole, role, free0, pt.pmm.Free(), frames)
    requires kpd == Pd(w0, kroot, i) && pd in role && role[pd] == RPd(i)
    requires forall k: nat :: k < 512 ==> Rd(pt.words, pd, k) == EMPTY
    modifies pt, pt.pmm.bits
    ensures Building(w0, pt.words, kroot, krole, role2, free0, pt.pmm.Free(), frames2)
    ensures Extends(role, role2) && SameOutside(old(pt.words), pt.words, {pd} + (role2.Keys - role.Keys))
    ensures ok ==> PdCopied(pt.words, kpd, pd, i, role2, 512)
    ensures !ok ==> Exhausted(pt)
  {
    ok, frames2, role2 := true, frames, role;
    var j := 0;
    while j < 512
      invariant j <= 512
      invariant Building(w0, pt.words, kroot, krole, role2, free0, pt.pmm.Free(), frames2)
      invariant Extends(role, role2) && SameOutside(old(pt.words), pt.words, {pd} + (role2.Keys - role.Keys))
      invariant PdCopied(pt.words, kpd, pd, i, role2, j)
      invariant forall k: nat :: j <= k < 512 ==> Rd(pt.words, pd, k) == EMPTY
    {
      ghost var w1, role1 := pt.words, role2;
      ok, frames2, role2 := CopyOnePde(pt, kpd, pd, i, j, frames2, role1, kroot, krole, w0, free0);
      forall f, k | f !in {pd} + (role2.Keys - role.Keys) ensures Rd(pt.words, f, k) == Rd(old(pt.words), f, k) {
        assert Rd(pt.words, f, k) == Rd(w1, f, k);
      }
      if !ok {
        return;
      }
      j := j + 1;
    }
  }

  /** Builds the private address space. On success the new tree translates every
      address as the kernel's does and exposes nothing to ring 3; it is a tree of
      its own frames. On failure the frames taken so far are returned for the
      caller to free. */
  method BuildAddressSpace(pt: PageTables, kroot: nat, ghost krole: Roles)
    returns (root: Option<nat>, frames: seq<nat>, ghost role: Roles)
    requires pt.Valid() && Tree(pt.words, kroot, krole) && krole.Keys !! pt.pmm.Free()
    modifies pt, pt.pmm.bits
    ensures Building(old(pt.words), pt.words, kroot, krole, role, old(pt.pmm.Free()), pt.pmm.Free(), frames)
    ensures Tree(pt.words, kroot, krole) && SameWalks(old(pt.words), pt.words, kroot)
    ensures root.Some? ==>
              && role.Keys !! krole.Keys
              && (forall p: nat :: p < ALL_PAGES ==> Walk(pt.words, root.value, p) == Supervisor(Walk(old(pt.words), kroot, p)))
              && (Tree(pt.words, root.value, role) <==> NoUserPage(old(pt.words), kroot))
    ensures root.None? ==> Exhausted(pt)
  {
    root, frames, role := None, [], map[];
    ghost var w0, free0 := pt.words, pt.pmm.Free();
    var pml4 := AllocFrame(pt);
    if pml4.None? {
      UntouchedTree(w0, pt.words, kroot, krole, {});
      return;
    }
    TakenOne(w0, w0, pt.words, role, free0, free0, frames, pml4.value, RPml4);
    frames, role := frames + [pml4.value], role[pml4.value := RPml4];
    ghost var w1 := pt.words;
    var pdpt := AllocFrame(pt);
    if pdpt.None? {
      KernelUntouched(w0, pt.words, kroot, krole, role, free0, pt.pmm.Free(), frames);
      return;
    }
    TakenOne(w0, w1, pt.words, role, free0, free0 - {pml4.value}, frames, pdpt.value, RPdpt);
    frames, role := frames + [pdpt.value], role[pdpt.value := RPdpt];
    ghost var w2 := pt.words;
    CopyTable(pt, kroot, pml4.value);
    pt.words := Wr(pt.words, pml4.value, 0, Entry(pdpt.value, true, true, false, false, false));
    assert SameOutside(w2, pt.words, {pml4.value});
    TakenWrite(w0, w2, pt.words, role, free0, pt.pmm.Free(), frames, pml4.value);
    KernelUntouched(w0, w2, kroot, krole, role, free0, pt.pmm.Free(), frames);
    var ok;
    ok, frames, role := CopyPdpt(pt, Pdpt(pt.words, kroot), pdpt.value, pml4.value, frames, role, kroot, krole, w0, free0);
    KernelUntouched(w0, pt.words, kroot, krole, role, free0, pt.pmm.Free(), frames);
    if ok {
      root := Some(pml4.value);
      forall p: nat | p < ALL_PAGES
        ensures Walk(pt.words, root.value, p) == Supervisor(Walk(w0, kroot, p))
      {
        CopyWalk(pt.words, kroot, krole, root.value, role, p);
      }
      CopyTree(pt.words, kroot, krole, root.value, role);
    }
  }

  /** The outer loop, over the 512 directory pointers. */
  method CopyPdpt(pt: PageTables, kpdpt: nat, pdpt: nat, pml4: nat, frames: seq<nat>,
                  ghost role: Roles, ghost kroot: nat, ghost krole: Roles, ghost w0: Words, ghost free0: set<nat>)
    returns (ok: bool, frames2: seq<nat>, ghost role2: Roles)
    requires pt.Valid()
    requires Building(w0, pt.words, kroot, krole, role, free0, pt.pmm.Free(), frames)
    requires kpdpt == Pdpt(w0, kroot) && pdpt in role && role[pdpt] == RPdpt && pml4 in role && role[pml4] == RPml4
    requires forall k: nat :: k < 512 ==> Rd(pt.words, pdpt, k) == EMPTY
    requires forall k: nat :: 1 <= k < 512 ==> Rd(pt.words, pml4, k) == Rd(w0, kroot, k)
    requires Rd(pt.words, pml4, 0) == Entry(pdpt, true, true, false, false, false)
    modifies pt, pt.pmm.bits
    ensures Building(w0, pt.words, kroot, krole, role2, free0, pt.pmm.Free(), frames2)
    ensures ok ==> Copied(pt.words, kroot, pml4, role2)
    ensures !ok ==> Exhausted(pt)
  {
    ok, frames2, role2 := true, frames, role;
    var i := 0;
    while i < 512
      invariant i <= 512
      invariant Building(w0, pt.words, kroot, krole, role2, free0, pt.pmm.Free(), frames2)
      invariant Extends(role, role2)
      invariant PdptCopied(pt.words, kpdpt, pdpt, role2, i)
      invariant forall k: nat :: i <= k < 512 ==> Rd(pt.words, pdpt, k) == EMPTY
      invariant forall k: nat :: k < 512 ==> Rd(pt.words, pml4, k) == old(Rd(pt.words, pml4, k))
    {
      ok, frames2, role2 := CopyOnePdpte(pt, kpdpt, pdpt, pml4, i, frames2, role2, kroot, krole, w0, free0);
      if !ok {
        return;
      }
      i := i + 1;
    }
    KernelUntouched(w0, pt.words, kroot, krole, role2, free0, pt.pmm.Free(), frames2);
  }

  /** Copies directory pointer `i` and the directory below it. */
  method CopyOnePdpte(pt: PageTables, kpdpt: nat, pdpt: nat, pml4: nat, i: nat, frames: seq<nat>,
                      ghost role: Roles, ghost kroot: nat, ghost krole: Roles, ghost w0: Words, ghost free0: set<nat>)
    returns (ok: bool, frames2: seq<nat>, ghost role2: Roles)
    requires pt.Valid() && i < 512
    requires Building(w0, pt.words, kroot, krole, role, free0, pt.pmm.Free(), frames)
    requires kpdpt == Pdpt(w0, kroot) && pdpt in role && role[pdpt] == RPdpt && pml4 in role && role[pml4] == RPml4
    requires PdptCopied(pt.words, kpdpt, pdpt, role, i)
    requires forall k: nat :: i <= k < 512 ==> Rd(pt.words, pdpt, k) == EMPTY
    modifies pt, pt.pmm.bits
    ensures Building(w0, pt.words, kroot, krole, role2, free0, pt.pmm.Free(), frames2)
    ensures Extends(role, role2)
    ensures ok ==> PdptCopied(pt.words, kpdpt, pdpt, role2, i + 1)
    ensures ok ==> forall k: nat :: i < k < 512 ==> Rd(pt.words, pdpt, k) == EMPTY
    ensures forall k: nat :: k < 512 ==> Rd(pt.words, pml4, k) == old(Rd(pt.words, pml4, k))
    ensures !ok ==> Exhausted(pt)
  {
    ok, frames2, role2 := true, frames, role;
    ghost var w1 := pt.words;
    KernelUntouched(w0, w1, kroot, krole, role, free0, pt.pmm.Free(), frames);
    var entry := Rd(pt.words, kpdpt, i);
    assert entry == Pdpte(w0, kroot, i) && entry == Pdpte(w1, kroot, i) && Pdpt(w1, kroot) == kpdpt;
    if !entry.present {
      return;
    }
    assert i < 4 && Dir(entry);
    if entry.ps {
      assert false;
      return;
    }
    var g := AllocFrame(pt);
    if g.None? {
      return false, frames, role;
    }
    var pd := g.value;
    TakenOne(w0, w1, pt.words, role, free0, old(pt.pmm.Free()), frames, pd, RPd(i));
    ghost var role1 := role[pd := RPd(i)];
    ghost var w2 := pt.words;
    ok, frames2, role2 := CopyPd(pt, entry.pfn, pd, i, frames + [pd], role1, kroot, krole, w0, free0);
    ghost var w3 := pt.words;
    assert SameOutside(w1, w3, role2.Keys - role.Keys) by {
      forall f, k | f !in role2.Keys - role.Keys ensures Rd(w3, f, k) == Rd(w1, f, k) {
        assert Rd(w3, f, k) == Rd(w2, f, k);
      }
    }
    if !ok {
      return;
    }
    pt.words := Wr(pt.words, pdpt, i, entry.(pfn := pd, nx := false));
    TakenWrite(w0, w3, pt.words, role2, free0, pt.pmm.Free(), frames2, pdpt);
    KernelUntouched(w0, w3, kroot, krole, role2, free0, pt.pmm.Free(), frames2);
    PdptStep(w1, w3, pt.words, kroot, krole, pdpt, role, role2, i, pd, entry);
  }

  lemma PdptStep(w1: Words, w3: Words, w4: Words, kroot: nat, krole: Roles, pdpt: nat, role: Roles, role2: Roles,
                 i: nat, pd: nat, entry: Entry)
    requires Tree(w1, kroot, krole) && Tree(w3, kroot, krole) && krole.Keys !! role2.Keys && i < 512 && Extends(role, role2)
    requires SameOutside(w1, w3, role2.Keys - role.Keys) && pdpt in role && role[pdpt] == RPdpt
    requires w4 == Wr(w3, pdpt, i, entry.(pfn := pd, nx := false))
    requires entry == Pdpte(w1, kroot, i) && entry.present
    requires pd in role2 && role2[pd] == RPd(i) && PdCopied(w3, entry.pfn, pd, i, role2, 512)
    requires PdptCopied(w1, Pdpt(w1, kroot), pdpt, role, i)
    ensures PdptCopied(w4, Pdpt(w1, kroot), pdpt, role2, i + 1)
  {
    PdptStable(w1, w3, kroot, krole, pdpt, role, role2, i, role2.Keys - role.Keys);
    assert Rd(w3, kroot, 0) == Rd(w1, kroot, 0);
    forall n: nat | n < i + 1 ensures PdpteCopied(w4, Rd(w4, Pdpt(w1, kroot), n), Rd(w4, pdpt, n), n, role2) {
      var ke, e := Rd(w4, Pdpt(w1, kroot), n), Rd(w4, pdpt, n);
      if n < i {
        assert PdpteCopied(w3, Rd(w3, Pdpt(w1, kroot), n), Rd(w3, pdpt, n), n, role2);
      }
      assert ke == Pdpte(w3, kroot, n) == Pdpte(w1, kroot, n);
      if ke.present {
        assert n < 4;
        forall j: nat | j < 512 ensures PdeCopied(w4, Rd(w4, ke.pfn, j), Rd(w4, e.pfn, j), n, j, role2) {
          assert PdeCopied(w3, Rd(w3, ke.pfn, j), Rd(w3, e.pfn, j), n, j, role2);
          assert PdeOk(Pde(w3, kroot, n, j), n, j, krole);
        }
      }
    }
  }
}
