/** Changing page tables in place (src/paging.rs). Every operation is stated as
    an exact update of the processor's walk. */
module Paging {
  import opened Wrappers
  import opened Pmm
  import opened PageTable

  const PAGE_SIZE: nat := 4096
  const IDENTITY_MAP_END: nat := 0x1_0000_0000

  /** The leaf attributes a caller may ask for; PRESENT is forced on. */
  datatype Perm = Perm(writable: bool, user: bool, nx: bool)

  ghost function SetOf(s: seq<nat>): set<nat> { set x | x in s }

  ghost predicate Distinct(s: seq<nat>) { forall a, b :: 0 <= a < b < |s| ==> s[a] != s[b] }

  /** The `k` pages from `v` on translate to the frames from `f` on with exactly
      the permissions `perm`; every other page translates as before. */
  ghost predicate Mapped(w: Words, w2: Words, root: nat, v: nat, f: nat, k: nat, perm: Perm) {
    forall q :: 0 <= q < ALL_PAGES ==>
      Walk(w2, root, q) == if v <= q < v + k then Some(Page(f + (q - v), perm.writable, perm.user, perm.nx))
                           else Walk(w, root, q)
  }

  /** The `k` pages from `v` on translate to nothing; the others as before. */
  ghost predicate Unmapped(w: Words, w2: Words, root: nat, v: nat, k: nat) {
    forall q :: 0 <= q < ALL_PAGES ==> Walk(w2, root, q) == if v <= q < v + k then None else Walk(w, root, q)
  }

  /** Pages of the range translate to nothing or as before; the others as before. */
  ghost predicate PartlyUnmapped(w: Words, w2: Words, root: nat, v: nat, k: nat) {
    forall q :: 0 <= q < ALL_PAGES ==> Walk(w2, root, q) == Walk(w, root, q) || (v <= q < v + k && Walk(w2, root, q).None?)
  }

  /** `frame_alloc` would still find a frame. */
  ghost predicate Available(free: set<nat>, last: nat) { exists f: nat :: f in free && f <= last }

  predicate IsSplit(w: Words, root: nat, p: nat) { !Pde(w, root, L3(p), L2(p)).ps }

  /** No page in the range sits under a 2 MiB entry. */
  ghost predicate AllSplit(w: Words, root: nat, v: nat, k: nat) {
    forall p :: v <= p < v + k ==> IsSplit(w, root, p)
  }

  /** Once split, a 2 MiB region stays split, with the same page table. */
  ghost predicate SplitsKept(w: Words, w2: Words, root: nat) {
    forall i, j :: 0 <= i < 4 && 0 <= j < 512 && !Pde(w, root, i, j).ps ==>
      !Pde(w2, root, i, j).ps && Pde(w2, root, i, j).pfn == Pde(w, root, i, j).pfn
  }

  /** What every operation does with table frames: it takes `added` from the
      free frames, gives each a place in the tree, and writes to no other frame
      than the tree's. */
  ghost predicate Grown(w: Words, w2: Words, root: nat, role: Roles, role2: Roles,
                        free: set<nat>, free2: set<nat>, added: seq<nat>) {
    && Tree(w2, root, role2)
    && SplitsKept(w, w2, root)
    && role2.Keys == role.Keys + SetOf(added)
    && Distinct(added) && SetOf(added) <= free && free2 == free - SetOf(added)
    && SameOutside(w, w2, role2.Keys)
  }

  lemma GrownRefl(w: Words, root: nat, role: Roles, free: set<nat>)
    requires Tree(w, root, role)
    ensures Grown(w, w, root, role, role, free, free, [])
  {
  }

  lemma GrownTrans(w: Words, w2: Words, w3: Words, root: nat, role: Roles, role2: Roles, role3: Roles,
                   free: set<nat>, free2: set<nat>, free3: set<nat>, a: seq<nat>, b: seq<nat>)
    requires Grown(w, w2, root, role, role2, free, free2, a) && Grown(w2, w3, root, role2, role3, free2, free3, b)
    ensures Grown(w, w3, root, role, role3, free, free3, a + b)
  {
    assert SetOf(a + b) == SetOf(a) + SetOf(b);
    forall x, y | 0 <= x < y < |a + b| ensures (a + b)[x] != (a + b)[y] {
      if x < |a| <= y {
        assert (a + b)[x] in SetOf(a) && (a + b)[y] in SetOf(b);
      }
    }
    forall f, k | f !in role3.Keys ensures Rd(w3, f, k) == Rd(w, f, k) {
      assert Rd(w3, f, k) == Rd(w2, f, k);
      assert f !in role2.Keys;
    }
  }

  class PageTables {
    var words: Words
    const pmm: FrameBitmap

    ghost predicate Valid()
      reads this, pmm
    {
      pmm.Valid()
    }

    /** The boot map: one PML4 entry, four directory pointers and 2048 entries of
        2 MiB, present and writable, supervisor only. It is the identity on the
        first 4 GiB. */
    constructor Boot(pmm: FrameBitmap, pml4: nat, pdpt: nat, pd: nat)
      requires pmm.Valid() && pml4 != pdpt
      requires !(pd <= pml4 < pd + 4) && !(pd <= pdpt < pd + 4)
      ensures Valid() && this.pmm == pmm
      ensures Tree(words, pml4, BootRoles(pml4, pdpt, pd))
      ensures forall p :: 0 <= p < PAGES ==> Walk(words, pml4, p) == Some(Page(p, true, false, false))
    {
      this.pmm := pmm;
      words := Wr(map[], pml4, 0, Entry(pdpt, true, true, false, false, false));
      new;
      var i := 0;
      while i < 4
        invariant i <= 4
        invariant Rd(words, pml4, 0) == Entry(pdpt, true, true, false, false, false)
        invariant forall f: nat, k: nat :: f != pml4 && f != pdpt ==> Rd(words, f, k) == EMPTY
        invariant forall k: nat :: k != 0 ==> Rd(words, pml4, k) == EMPTY
        invariant forall k: nat :: Rd(words, pdpt, k) ==
                    if k < i then Entry(pd + k, true, true, false, false, false) else EMPTY
      {
        words := Wr(words, pdpt, i, Entry(pd + i, true, true, false, false, false));
        i := i + 1;
      }
      FillBootDirectories(pml4, pdpt, pd);
      BootTree(words, pml4, pdpt, pd);
    }

    /** The loop over the 2048 page-directory entries. */
    method FillBootDirectories(pml4: nat, pdpt: nat, pd: nat)
      requires !(pd <= pml4 < pd + 4) && !(pd <= pdpt < pd + 4)
      modifies `words
      ensures forall k: nat :: Rd(words, pml4, k) == old(Rd(words, pml4, k)) && Rd(words, pdpt, k) == old(Rd(words, pdpt, k))
      ensures forall b: nat, j: nat :: pd <= b < pd + 4 && j < 512 ==> Rd(words, b, j) == BootPde((b - pd) * 512 + j)
    {
      var n := 0;
      while n < 2048
        invariant n <= 2048
        invariant forall k: nat :: Rd(words, pml4, k) == old(Rd(words, pml4, k)) && Rd(words, pdpt, k) == old(Rd(words, pdpt, k))
        invariant forall b: nat, j: nat :: pd <= b < pd + 4 && j < 512 && (b - pd) * 512 + j < n ==>
                    Rd(words, b, j) == BootPde((b - pd) * 512 + j)
      {
        words := Wr(words, pd + n / 512, n % 512, BootPde(n));
        n := n + 1;
      }
    }

    /** The entry 0x83 | n << 21. */
    static function BootPde(n: nat): Entry {
      Entry(n * 512, true, true, false, true, false)
    }

    static lemma BootTree(w: Words, pml4: nat, pdpt: nat, pd: nat)
      requires pml4 != pdpt && !(pd <= pml4 < pd + 4) && !(pd <= pdpt < pd + 4)
      requires forall k: nat :: Rd(w, pml4, k) == if k == 0 then Entry(pdpt, true, true, false, false, false) else EMPTY
      requires forall k: nat :: Rd(w, pdpt, k) == if k < 4 then Entry(pd + k, true, true, false, false, false) else EMPTY
      requires forall b: nat, j: nat :: pd <= b < pd + 4 && j < 512 ==> Rd(w, b, j) == BootPde((b - pd) * 512 + j)
      ensures Tree(w, pml4, BootRoles(pml4, pdpt, pd))
      ensures forall p :: 0 <= p < PAGES ==> Walk(w, pml4, p) == Some(Page(p, true, false, false))
    {
      forall a, j | 0 <= a < 4 && 0 <= j < 512 ensures Pde(w, pml4, a, j) == BootPde(a * 512 + j) {
        assert Pd(w, pml4, a) == pd + a;
      }
      var role := BootRoles(pml4, pdpt, pd);
      assert Tree(w, pml4, role);
      forall p | 0 <= p < PAGES ensures Walk(w, pml4, p) == Some(Page(p, true, false, false)) {
        Levels(p);
        WalkIsLeaf(w, pml4, role, p);
      }
    }

    static function BootRoles(pml4: nat, pdpt: nat, pd: nat): Roles {
      map[pml4 := RPml4, pdpt := RPdpt, pd := RPd(0), pd + 1 := RPd(1), pd + 2 := RPd(2), pd + 3 := RPd(3)]
    }

    /** Walks to the page-table entry of page `p`, raising USER on the way when
        asked and splitting a 2 MiB entry if one is there. No walk changes. The
        missing-directory branch cannot be taken. */
    method PtEntry(root: nat, p: nat, user: bool, ghost role: Roles)
      returns (loc: Option<(nat, nat)>, added: seq<nat>, ghost role2: Roles)
      requires Valid() && p < PAGES && Tree(words, root, role) && role.Keys !! pmm.Free()
      modifies this, pmm.bits
      ensures Grown(old(words), words, root, role, role2, old(pmm.Free()), pmm.Free(), added)
      ensures SameWalks(old(words), words, root)
      ensures loc.Some? ==>
                && IsSplit(words, root, p)
                && loc.value == (Pde(words, root, L3(p), L2(p)).pfn, L1(p))
                && (user ==> PathUser(words, root, p))
      ensures loc.None? <==> !IsSplit(old(words), root, p) && forall f: nat :: f in old(pmm.Free()) ==> f > pmm.last
      ensures IsSplit(old(words), root, p) || loc.None? ==> added == [] && role2 == role && pmm.Free() == old(pmm.Free())
    {
      added, role2 := [], role;
      Levels(p);
      var e4 := Rd(words, root, L4(p));
      if !e4.present {
        assert false;
        return None, [], role;
      }
      var e3 := Rd(words, e4.pfn, L3(p));
      if !e3.present || e3.ps {
        assert false;
        return None, [], role;
      }
      if user {
        RaiseUpper(root, L3(p), role);
      }
      ghost var w1 := words;
      UpperRaised(old(words), w1, root, role, p);
      var e2 := Rd(words, e3.pfn, L2(p));
      if !e2.present {
        assert false;
        return None, [], role;
      }
      if e2.ps {
        loc, added, role2 := SplitPde(root, p, user, role);
        SplitsKeptTrans(old(words), w1, words, root);
        return;
      }
      if user {
        RaisePde(root, L3(p), L2(p), role);
      }
      loc := Some((e2.pfn, L1(p)));
    }

    /** The USER promotion on the first two levels. */
    method RaiseUpper(root: nat, i: nat, ghost role: Roles)
      requires Upper(words, root, role) && i < 4
      modifies `words
      ensures Promoted(old(words), words, role) && SameOutside(old(words), words, role.Keys)
      ensures Rd(words, root, 0).user && Pdpte(words, root, i).user
    {
      var e4, e3 := Rd(words, root, 0), Pdpte(words, root, i);
      if !e4.user {
        words := Wr(words, root, 0, e4.(user := true));
      }
      if !e3.user {
        words := Wr(words, e4.pfn, i, e3.(user := true));
      }
    }

    /** The USER promotion on the page directory entry. */
    method RaisePde(root: nat, i: nat, j: nat, ghost role: Roles)
      requires Tree(words, root, role) && i < 4 && j < 512 && !Pde(words, root, i, j).ps
      modifies `words
      ensures Grown(old(words), words, root, role, role, {}, {}, []) && SameWalks(old(words), words, root)
      ensures Pde(words, root, i, j) == Pde(old(words), root, i, j).(user := true)
      ensures Pdpte(words, root, i) == Pdpte(old(words), root, i) && Rd(words, root, 0) == Rd(old(words), root, 0)
    {
      var pd, e2 := Pd(words, root, i), Pde(words, root, i, j);
      assert PdeOk(e2, i, j, role) && role[pd] == RPd(i);
      if !e2.user {
        words := Wr(words, pd, j, e2.(user := true));
      }
      assert Promoted(old(words), words, role);
      PromoteKeepsWalks(old(words), words, root, role);
      PromoteKeepsTree(old(words), words, root, role);
    }

    static lemma UpperRaised(w: Words, w2: Words, root: nat, role: Roles, p: nat)
      requires Tree(w, root, role) && Promoted(w, w2, role) && SameOutside(w, w2, role.Keys) && p < PAGES
      ensures Grown(w, w2, root, role, role, {}, {}, []) && SameWalks(w, w2, root)
      ensures IsSplit(w2, root, p) == IsSplit(w, root, p)
      ensures Rd(w2, root, 0).pfn == Rd(w, root, 0).pfn
    {
      Levels(p);
      PromoteKeepsWalks(w, w2, root, role);
      PromoteKeepsTree(w, w2, root, role);
    }

    /** The split branch: a fresh page table replaces the 2 MiB entry. */
    method SplitPde(root: nat, p: nat, user: bool, ghost role: Roles)
      returns (loc: Option<(nat, nat)>, added: seq<nat>, ghost role2: Roles)
      requires Valid() && p < PAGES && Tree(words, root, role) && role.Keys !! pmm.Free()
      requires !IsSplit(words, root, p)
      modifies this, pmm.bits
      ensures Grown(old(words), words, root, role, role2, old(pmm.Free()), pmm.Free(), added)
      ensures SameWalks(old(words), words, root)
      ensures loc.Some? ==>
                && IsSplit(words, root, p)
                && loc.value == (Pde(words, root, L3(p), L2(p)).pfn, L1(p))
                && Pde(words, root, L3(p), L2(p)).user == user
                && Pdpte(words, root, L3(p)) == Pdpte(old(words), root, L3(p)) && Rd(words, root, 0) == Rd(old(words), root, 0)
      ensures loc.None? <==> forall f: nat :: f in old(pmm.Free()) ==> f > pmm.last
      ensures loc.None? ==> added == [] && role2 == role && words == old(words) && pmm.Free() == old(pmm.Free())
    {
      added, role2 := [], role;
      GrownRefl(words, root, role, pmm.Free());
      Levels(p);
      var pd, e2 := Pd(words, root, L3(p)), Pde(words, root, L3(p), L2(p));
      assert PdeOk(e2, L3(p), L2(p), role);
      assert role[pd] == RPd(L3(p));
      var frame := pmm.FrameAlloc();
      if frame.None? {
        return None, [], role;
      }
      var g := frame.value;
      added, role2 := [g], role[g := RPt(L3(p), L2(p))];
      FillSplit(g, e2);
      words := Wr(words, pd, L2(p), e2.(pfn := g, ps := false, user := e2.user || user));
      SplitKeepsWalks(old(words), words, root, role, L3(p), L2(p), g, user);
      SplitGrown(old(words), words, root, role, g, L3(p), L2(p));
      loc := Some((g, L1(p)));
    }

    static lemma SplitGrown(w: Words, w2: Words, root: nat, role: Roles, g: nat, i: nat, j: nat)
      requires Tree(w, root, role) && i < 4 && j < 512 && g !in role && Pde(w, root, i, j).ps
      requires forall f: nat, k: nat :: f != g && !(f == Pd(w, root, i) && k == j) ==> Rd(w2, f, k) == Rd(w, f, k)
      ensures SameOutside(w, w2, role.Keys + {g}) && SplitsKept(w, w2, root)
    {
      forall a, b | 0 <= a < 4 && 0 <= b < 512 && !Pde(w, root, a, b).ps
        ensures Pde(w2, root, a, b) == Pde(w, root, a, b)
      {
        assert role[Pd(w, root, i)] == RPd(i) && role[Pd(w, root, a)] == RPd(a);
        assert Rd(w2, root, 0) == Rd(w, root, 0);
        assert Pdpte(w2, root, a) == Pdpte(w, root, a);
      }
    }

    static lemma SplitsKeptTrans(w: Words, w2: Words, w3: Words, root: nat)
      requires SplitsKept(w, w2, root) && SplitsKept(w2, w3, root)
      ensures SplitsKept(w, w3, root)
    {
    }

    /** The 512-step split loop. */
    method FillSplit(g: nat, e: Entry)
      modifies `words
      ensures SplitFrame(words, g, e)
      ensures SameOutside(old(words), words, {g})
    {
      var k := 0;
      while k < 512
        invariant k <= 512
        invariant forall x :: 0 <= x < k ==> Rd(words, g, x) == Entry(e.pfn + x, e.present, e.writable, e.user, false, e.nx)
        invariant SameOutside(old(words), words, {g})
      {
        words := Wr(words, g, k, Entry(e.pfn + k, e.present, e.writable, e.user, false, e.nx));
        k := k + 1;
      }
    }

    /** Maps [virt, virt+len) to the physical range from `phys` on. `k` counts
        the pages that were mapped: all of them on success, a prefix when frames
        run out, none when the range is refused. */
    method MapRange(root: nat, virt: nat, phys: nat, len: nat, perm: Perm, ghost role: Roles)
      returns (ok: bool, added: seq<nat>, ghost role2: Roles, ghost k: nat)
      requires Valid() && Tree(words, root, role) && role.Keys !! pmm.Free()
      modifies this, pmm.bits
      ensures Grown(old(words), words, root, role, role2, old(pmm.Free()), pmm.Free(), added)
      ensures Mapped(old(words), words, root, virt / PAGE_SIZE, phys / PAGE_SIZE, k, perm)
      ensures AllSplit(words, root, virt / PAGE_SIZE, k)
      ensures ok <==> RangeOk(virt, phys, len) && k == len / PAGE_SIZE
      ensures k > 0 ==> virt / PAGE_SIZE + k <= PAGES
      ensures k <= len / PAGE_SIZE && (!RangeOk(virt, phys, len) ==> k == 0 && words == old(words) && added == [])
      ensures RangeOk(virt, phys, len) && !ok ==> forall f: nat :: f in pmm.Free() ==> f > pmm.last
      ensures AllSplit(old(words), root, virt / PAGE_SIZE, len / PAGE_SIZE) ==>
                added == [] && role2 == role && pmm.Free() == old(pmm.Free()) && (ok <==> RangeOk(virt, phys, len))
    {
      added, role2, k := [], role, 0;
      GrownRefl(words, root, role, pmm.Free());
      if virt % PAGE_SIZE != 0 || phys % PAGE_SIZE != 0 || len % PAGE_SIZE != 0 || len == 0 || virt + len > IDENTITY_MAP_END {
        return false, [], role, 0;
      }
      var v0, f0, n := virt / PAGE_SIZE, phys / PAGE_SIZE, len / PAGE_SIZE;
      assert v0 + n <= PAGES;
      ok, added, role2, k := MapPages(root, v0, f0, n, perm, role);
    }

    /** `MapRange` for a caller that holds page and frame numbers. */
    method MapAt(root: nat, v: nat, f: nat, n: nat, perm: Perm, ghost role: Roles)
      returns (ok: bool, added: seq<nat>, ghost role2: Roles, ghost k: nat)
      requires Valid() && Tree(words, root, role) && role.Keys !! pmm.Free()
      modifies this, pmm.bits
      ensures Grown(old(words), words, root, role, role2, old(pmm.Free()), pmm.Free(), added)
      ensures Mapped(old(words), words, root, v, f, k, perm) && AllSplit(words, root, v, k)
      ensures k <= n && (k > 0 ==> v + k <= PAGES) && (ok <==> 0 < k == n)
      ensures !ok && 0 < n && v + n <= PAGES ==> forall g: nat :: g in pmm.Free() ==> g > pmm.last
      ensures AllSplit(old(words), root, v, n) && 0 < n && v + n <= PAGES ==>
                ok && added == [] && role2 == role && pmm.Free() == old(pmm.Free())
    {
      ok, added, role2, k := MapRange(root, v * PAGE_SIZE, f * PAGE_SIZE, n * PAGE_SIZE, perm, role);
      assert v * PAGE_SIZE / PAGE_SIZE == v && f * PAGE_SIZE / PAGE_SIZE == f && n * PAGE_SIZE / PAGE_SIZE == n;
    }

    /** The page-by-page mapping loop, on page and frame numbers. */
    method MapPages(root: nat, v0: nat, f0: nat, n: nat, perm: Perm, ghost role: Roles)
      returns (ok: bool, added: seq<nat>, ghost role2: Roles, ghost k: nat)
      requires Valid() && Tree(words, root, role) && role.Keys !! pmm.Free() && v0 + n <= PAGES
      modifies this, pmm.bits
      ensures Grown(old(words), words, root, role, role2, old(pmm.Free()), pmm.Free(), added)
      ensures Mapped(old(words), words, root, v0, f0, k, perm)
      ensures AllSplit(words, root, v0, k)
      ensures k <= n && (ok <==> k == n)
      ensures !ok ==> forall f: nat :: f in pmm.Free() ==> f > pmm.last
      ensures AllSplit(old(words), root, v0, n) ==>
                ok && added == [] && role2 == role && pmm.Free() == old(pmm.Free())
    {
      added, role2, k := [], role, 0;
      GrownRefl(words, root, role, pmm.Free());
      ok := true;
      var turn := 0;
      while turn < n
        invariant k == turn <= n
        invariant Progress(old(words), words, root, role, role2, old(pmm.Free()), pmm.Free(), added, v0, f0, turn, n, perm)
      {
        ok, added, role2 := MapNext(root, v0, f0, turn, n, perm, role, role2, old(words), old(pmm.Free()), added);
        if !ok {
          return;
        }
        turn, k := turn + 1, k + 1;
      }
    }

    /** After `k` turns of the mapping loop. */
    static ghost predicate Progress(w: Words, w2: Words, root: nat, role: Roles, role2: Roles, free: set<nat>, free2: set<nat>,
                                    added: seq<nat>, v0: nat, f0: nat, k: nat, n: nat, perm: Perm) {
      && Grown(w, w2, root, role, role2, free, free2, added)
      && role2.Keys !! free2
      && Mapped(w, w2, root, v0, f0, k, perm)
      && AllSplit(w2, root, v0, k)
      && (AllSplit(w, root, v0, n) ==> added == [] && role2 == role && free2 == free)
    }

    method MapNext(root: nat, v0: nat, f0: nat, k: nat, n: nat, perm: Perm, ghost role: Roles, ghost role1: Roles,
                   ghost w: Words, ghost free: set<nat>, added: seq<nat>)
      returns (done: bool, added2: seq<nat>, ghost role2: Roles)
      requires Valid() && k < n && v0 + n <= PAGES
      requires Progress(w, words, root, role, role1, free, pmm.Free(), added, v0, f0, k, n, perm)
      modifies this, pmm.bits
      ensures Progress(w, words, root, role, role2, free, pmm.Free(), added2, v0, f0, if done then k + 1 else k, n, perm)
      ensures !done ==> !AllSplit(w, root, v0, n) && forall f: nat :: f in pmm.Free() ==> f > pmm.last
    {
      var v, f := v0 + k, f0 + k;
      ghost var w0, free0 := words, pmm.Free();
      StillSplit(w, w0, root, v0, n, v);
      var more;
      done, more, role2 := MapOne(root, v, f, perm, role1);
      added2 := added + more;
      ProgressStep(w, w0, words, root, role, role1, role2, free, free0, pmm.Free(), added, more, v0, f0, k, n, perm,
                   v, f, if done then 1 else 0, if done then k + 1 else k);
    }

    static lemma ProgressStep(w: Words, w0: Words, w2: Words, root: nat, role: Roles, role1: Roles, role2: Roles,
                              free: set<nat>, free0: set<nat>, free2: set<nat>, added: seq<nat>, more: seq<nat>,
                              v0: nat, f0: nat, k: nat, n: nat, perm: Perm, v: nat, f: nat, d: nat, k2: nat)
      requires Progress(w, w0, root, role, role1, free, free0, added, v0, f0, k, n, perm)
      requires k < n && v0 + n <= PAGES && v == v0 + k && f == f0 + k && d <= 1 && k2 == k + d
      requires Grown(w0, w2, root, role1, role2, free0, free2, more) && Mapped(w0, w2, root, v, f, d, perm)
      requires d == 1 ==> IsSplit(w2, root, v)
      requires IsSplit(w0, root, v) || d == 0 ==> more == [] && role2 == role1 && free2 == free0
      requires AllSplit(w, root, v0, n) ==> IsSplit(w0, root, v)
      ensures Progress(w, w2, root, role, role2, free, free2, added + more, v0, f0, k2, n, perm)
    {
      GrownTrans(w, w0, w2, root, role, role1, role2, free, free0, free2, added, more);
      KeepSplit(w0, w2, root, v0, k);
      SplitStep(w2, root, v0, k, v, d, k2);
      MappedStep(w, w0, w2, root, v0, f0, k, v, f, d, k2, perm);
    }

    static lemma SplitStep(w: Words, root: nat, v0: nat, k: nat, v: nat, d: nat, k2: nat)
      requires AllSplit(w, root, v0, k) && v == v0 + k && d <= 1 && k2 == k + d && (d == 1 ==> IsSplit(w, root, v))
      ensures AllSplit(w, root, v0, k2)
    {
      forall p | v0 <= p < v0 + k2 ensures IsSplit(w, root, p) {
        if p == v {
        }
      }
    }

    static lemma MappedStep(w: Words, w2: Words, w3: Words, root: nat, v: nat, f: nat, k: nat,
                            v2: nat, f2: nat, d: nat, k2: nat, perm: Perm)
      requires v2 == v + k && f2 == f + k && k2 == k + d
      requires Mapped(w, w2, root, v, f, k, perm) && Mapped(w2, w3, root, v2, f2, d, perm)
      ensures Mapped(w, w3, root, v, f, k2, perm)
    {
    }

    /** One turn of the mapping loop. */
    method MapOne(root: nat, v: nat, f: nat, perm: Perm, ghost role: Roles)
      returns (done: bool, added: seq<nat>, ghost role2: Roles)
      requires Valid() && v < PAGES && Tree(words, root, role) && role.Keys !! pmm.Free()
      modifies this, pmm.bits
      ensures Grown(old(words), words, root, role, role2, old(pmm.Free()), pmm.Free(), added)
      ensures Mapped(old(words), words, root, v, f, if done then 1 else 0, perm)
      ensures done ==> IsSplit(words, root, v)
      ensures !done <==> !IsSplit(old(words), root, v) && forall g: nat :: g in old(pmm.Free()) ==> g > pmm.last
      ensures IsSplit(old(words), root, v) || !done ==> added == [] && role2 == role && pmm.Free() == old(pmm.Free())
    {
      var loc;
      loc, added, role2 := PtEntry(root, v, perm.user, role);
      if loc.None? {
        return false, added, role2;
      }
      ghost var w1 := words;
      LeafWrite(words, root, role2, v, Entry(f, true, perm.writable, perm.user, false, perm.nx));
      words := Wr(words, loc.value.0, loc.value.1, Entry(f, true, perm.writable, perm.user, false, perm.nx));
      LeafGrown(w1, words, root, role2, v, pmm.Free());
      GrownTrans(old(words), w1, words, root, role, role2, role2, old(pmm.Free()), pmm.Free(), pmm.Free(), added, []);
      AddNone(added);
      Levels(v);
      done := true;
    }

    static lemma AddNone(added: seq<nat>)
      ensures added + [] == added
    {
    }

    static predicate RangeOk(virt: nat, phys: nat, len: nat) {
      virt % PAGE_SIZE == 0 && phys % PAGE_SIZE == 0 && len % PAGE_SIZE == 0 && len > 0 && virt + len <= IDENTITY_MAP_END
    }

    static lemma KeepSplit(w: Words, w2: Words, root: nat, v: nat, k: nat)
      requires AllSplit(w, root, v, k) && SplitsKept(w, w2, root) && v + k <= PAGES
      ensures AllSplit(w2, root, v, k)
    {
      forall p | v <= p < v + k ensures IsSplit(w2, root, p) {
        Levels(p);
        assert IsSplit(w, root, p);
      }
    }

    static lemma StillSplit(w: Words, w2: Words, root: nat, v: nat, k: nat, p: nat)
      requires SplitsKept(w, w2, root) && v <= p < v + k <= PAGES
      ensures AllSplit(w, root, v, k) ==> IsSplit(w2, root, p)
    {
      Levels(p);
      assert AllSplit(w, root, v, k) ==> IsSplit(w, root, p);
    }

    static lemma LeafGrown(w: Words, w2: Words, root: nat, role: Roles, p: nat, free: set<nat>)
      requires Tree(w, root, role) && Tree(w2, root, role) && p < PAGES && IsSplit(w, root, p)
      requires forall i, j :: 0 <= i < 4 && 0 <= j < 512 ==> Pde(w2, root, i, j) == Pde(w, root, i, j)
      requires SameOutside(w, w2, {Pde(w, root, L3(p), L2(p)).pfn})
      ensures Grown(w, w2, root, role, role, free, free, [])
    {
      Levels(p);
      assert PdeOk(Pde(w, root, L3(p), L2(p)), L3(p), L2(p), role);
    }

    /** Clears every page of [virt, virt+len). Over pages already mapped by
        `MapRange` it takes no frame; over a 2 MiB entry the frame of the split is
        recorded nowhere (`leaked`), and a page whose split finds no frame is skipped:
        all are cleared if a frame is left in the end. */
    method UnmapRange(root: nat, virt: nat, len: nat, ghost role: Roles)
      returns (ok: bool, ghost leaked: seq<nat>, ghost role2: Roles)
      requires Valid() && Tree(words, root, role) && role.Keys !! pmm.Free()
      modifies this, pmm.bits
      ensures ok <==> RangeOk(virt, 0, len)
      ensures Grown(old(words), words, root, role, role2, old(pmm.Free()), pmm.Free(), leaked)
      ensures !ok ==> words == old(words) && leaked == []
      ensures ok && AllSplit(old(words), root, virt / PAGE_SIZE, len / PAGE_SIZE) ==>
                && leaked == [] && role2 == role && pmm.Free() == old(pmm.Free())
                && Unmapped(old(words), words, root, virt / PAGE_SIZE, len / PAGE_SIZE)
      ensures ok ==> PartlyUnmapped(old(words), words, root, virt / PAGE_SIZE, len / PAGE_SIZE)
      ensures ok && Available(pmm.Free(), pmm.last) ==> Unmapped(old(words), words, root, virt / PAGE_SIZE, len / PAGE_SIZE)
    {
      leaked, role2 := [], role;
      GrownRefl(words, root, role, pmm.Free());
      if virt % PAGE_SIZE != 0 || len % PAGE_SIZE != 0 || len == 0 || virt + len > IDENTITY_MAP_END {
        return false, [], role;
      }
      assert virt / PAGE_SIZE + len / PAGE_SIZE <= PAGES;
      leaked, role2 := UnmapPages(root, virt / PAGE_SIZE, len / PAGE_SIZE, role);
      ok := true;
    }

    /** The page-by-page clearing loop. */
    method UnmapPages(root: nat, v0: nat, n: nat, ghost role: Roles)
      returns (ghost leaked: seq<nat>, ghost role2: Roles)
      requires Valid() && Tree(words, root, role) && role.Keys !! pmm.Free() && v0 + n <= PAGES
      modifies this, pmm.bits
      ensures Grown(old(words), words, root, role, role2, old(pmm.Free()), pmm.Free(), leaked)
      ensures AllSplit(old(words), root, v0, n) ==>
                && leaked == [] && role2 == role && pmm.Free() == old(pmm.Free())
                && Unmapped(old(words), words, root, v0, n)
      ensures PartlyUnmapped(old(words), words, root, v0, n)
      ensures Available(pmm.Free(), pmm.last) ==> Unmapped(old(words), words, root, v0, n)
    {
      leaked, role2 := [], role;
      GrownRefl(words, root, role, pmm.Free());
      var i := 0;
      while i < n
        invariant i <= n
        invariant Cleared(old(words), words, root, role, role2, old(pmm.Free()), pmm.Free(), leaked, v0, i, n)
        invariant ClearedPart(old(words), words, root, pmm.Free(), pmm.last, v0, i)
      {
        ghost var w1, free1, role1 := words, pmm.Free(), role2;
        var v := v0 + i;
        StillSplit(old(words), w1, root, v0, n, v);
        ghost var more;
        var done;
        done, more, role2 := UnmapOne(root, v, role1);
        PartStep(old(words), w1, words, root, free1, pmm.Free(), pmm.last, v0, i, v, done);
        ClearedStep(old(words), w1, words, root, role, role1, role2, old(pmm.Free()), free1, pmm.Free(), leaked, more, v0, i, n, v, done);
        leaked := leaked + more;
        i := i + 1;
      }
    }

    /** After `i` turns of the clearing loop. */
    static ghost predicate Cleared(w: Words, w2: Words, root: nat, role: Roles, role2: Roles, free: set<nat>, free2: set<nat>,
                                   leaked: seq<nat>, v0: nat, i: nat, n: nat) {
      && Grown(w, w2, root, role, role2, free, free2, leaked)
      && role2.Keys !! free2
      && (AllSplit(w, root, v0, n) ==> leaked == [] && role2 == role && free2 == free && Unmapped(w, w2, root, v0, i))
    }

    /** The same over ranges that are not all split. */
    static ghost predicate ClearedPart(w: Words, w2: Words, root: nat, free: set<nat>, last: nat, v0: nat, i: nat) {
      PartlyUnmapped(w, w2, root, v0, i) && (Available(free, last) ==> Unmapped(w, w2, root, v0, i))
    }

    static lemma PartStep(w: Words, w1: Words, w2: Words, root: nat, free1: set<nat>, free2: set<nat>, last: nat, v0: nat, i: nat, v: nat, done: bool)
      requires ClearedPart(w, w1, root, free1, last, v0, i) && v == v0 + i && free2 <= free1
      requires if done then Unmapped(w1, w2, root, v, 1) else SameWalks(w1, w2, root) && !Available(free1, last)
      ensures ClearedPart(w, w2, root, free2, last, v0, i + 1)
    {
      assert Available(free2, last) ==> Available(free1, last);
    }

    static lemma ClearedStep(w: Words, w1: Words, w2: Words, root: nat, role: Roles, role1: Roles, role2: Roles,
                             free: set<nat>, free1: set<nat>, free2: set<nat>, leaked: seq<nat>, more: seq<nat>,
                             v0: nat, i: nat, n: nat, v: nat, done: bool)
      requires Cleared(w, w1, root, role, role1, free, free1, leaked, v0, i, n) && i < n && v == v0 + i
      requires Grown(w1, w2, root, role1, role2, free1, free2, more) && role2.Keys !! free2
      requires AllSplit(w, root, v0, n) ==> IsSplit(w1, root, v)
      requires IsSplit(w1, root, v) ==> done && more == [] && role2 == role1 && free2 == free1
      requires done ==> Unmapped(w1, w2, root, v, 1)
      ensures Cleared(w, w2, root, role, role2, free, free2, leaked + more, v0, i + 1, n)
    {
      GrownTrans(w, w1, w2, root, role, role1, role2, free, free1, free2, leaked, more);
    }

    /** One turn of the clearing loop. */
    method UnmapOne(root: nat, v: nat, ghost role: Roles)
      returns (done: bool, ghost more: seq<nat>, ghost role2: Roles)
      requires Valid() && v < PAGES && Tree(words, root, role) && role.Keys !! pmm.Free()
      modifies this, pmm.bits
      ensures Grown(old(words), words, root, role, role2, old(pmm.Free()), pmm.Free(), more) && role2.Keys !! pmm.Free()
      ensures if done then Unmapped(old(words), words, root, v, 1) else SameWalks(old(words), words, root)
      ensures !done ==> !Available(old(pmm.Free()), pmm.last)
      ensures IsSplit(old(words), root, v) ==> done && more == [] && role2 == role && pmm.Free() == old(pmm.Free())
    {
      var loc, added;
      loc, added, role2 := PtEntry(root, v, false, role);
      more, done := added, loc.Some?;
      if loc.Some? {
        ghost var w1 := words;
        LeafWrite(words, root, role2, v, EMPTY);
        words := Wr(words, loc.value.0, loc.value.1, EMPTY);
        LeafGrown(w1, words, root, role2, v, pmm.Free());
        GrownTrans(old(words), w1, words, root, role, role2, role2, old(pmm.Free()), pmm.Free(), pmm.Free(), more, []);
        assert more + [] == more;
      }
    }

    /** `UnmapRange` over pages that `MapRange` mapped before. */
    method UnmapAt(root: nat, v: nat, n: nat, ghost role: Roles)
      requires Valid() && Tree(words, root, role) && role.Keys !! pmm.Free()
      requires 0 < n && v + n <= PAGES && AllSplit(words, root, v, n)
      modifies this, pmm.bits
      ensures Grown(old(words), words, root, role, role, old(pmm.Free()), pmm.Free(), [])
      ensures Unmapped(old(words), words, root, v, n)
    {
      assert v * PAGE_SIZE / PAGE_SIZE == v && n * PAGE_SIZE / PAGE_SIZE == n;
      var _, _, role2 := UnmapRange(root, v * PAGE_SIZE, n * PAGE_SIZE, role);
    }

    /** `map_page`: one page of the kernel's own map. The frame of a split is recorded
        nowhere. */
    method MapPage(root: nat, virt: nat, phys: nat, perm: Perm, ghost role: Roles)
      returns (ok: bool, ghost leaked: seq<nat>, ghost role2: Roles)
      requires Valid() && Tree(words, root, role) && role.Keys !! pmm.Free()
      modifies this, pmm.bits
      ensures Grown(old(words), words, root, role, role2, old(pmm.Free()), pmm.Free(), leaked)
      ensures Mapped(old(words), words, root, virt / PAGE_SIZE, phys / PAGE_SIZE, if ok then 1 else 0, perm)
      ensures ok ==> RangeOk(virt, phys, PAGE_SIZE) && phys < IDENTITY_MAP_END
      ensures RangeOk(virt, phys, PAGE_SIZE) && phys < IDENTITY_MAP_END && !ok ==> !Available(old(pmm.Free()), pmm.last)
    {
      leaked, role2, ok := [], role, false;
      GrownRefl(words, root, role, pmm.Free());
      if virt < IDENTITY_MAP_END && phys < IDENTITY_MAP_END && virt % PAGE_SIZE == 0 && phys % PAGE_SIZE == 0 {
        var added;
        ok, added, role2 := MapOne(root, virt / PAGE_SIZE, phys / PAGE_SIZE, perm, role);
        leaked := added;
      }
    }

    /** `unmap_page`. */
    method UnmapPage(root: nat, virt: nat, ghost role: Roles) returns (ok: bool, ghost leaked: seq<nat>, ghost role2: Roles)
      requires Valid() && Tree(words, root, role) && role.Keys !! pmm.Free()
      modifies this, pmm.bits
      ensures Grown(old(words), words, root, role, role2, old(pmm.Free()), pmm.Free(), leaked)
      ensures ok ==> virt < IDENTITY_MAP_END && virt % PAGE_SIZE == 0
      ensures if ok then Unmapped(old(words), words, root, virt / PAGE_SIZE, 1) else SameWalks(old(words), words, root)
      ensures virt < IDENTITY_MAP_END && virt % PAGE_SIZE == 0 && !ok ==> !Available(old(pmm.Free()), pmm.last)
    {
      leaked, role2, ok := [], role, false;
      GrownRefl(words, root, role, pmm.Free());
      if virt < IDENTITY_MAP_END && virt % PAGE_SIZE == 0 {
        ok, leaked, role2 := UnmapOne(root, virt / PAGE_SIZE, role);
      }
    }
  }
}
