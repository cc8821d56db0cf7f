/** Four-level page tables as the processor reads them (src/paging.rs and
    Intel SDM vol. 3A sections 4.5 and 4.6), and the shape every tree reachable
    from the boot map (src/main.rs:105-130) has.

    Table words are addressed physically, by frame number and index. Virtual
    addresses are handled as page numbers. */
module PageTable {
  import opened Wrappers
  import opened Pmm

  /** One 64-bit table entry, by field: PRESENT, WRITABLE, USER, PS and NX. */
  datatype Entry = Entry(pfn: nat, present: bool, writable: bool, user: bool, ps: bool, nx: bool)

  const EMPTY: Entry := Entry(0, false, false, false, false, false)

  /** Physical memory holding tables: (frame, index) to entry. */
  type Words = map<(nat, nat), Entry>

  function Rd(w: Words, f: nat, i: nat): Entry {
    if (f, i) in w then w[(f, i)] else EMPTY
  }

  function Wr(w: Words, f: nat, i: nat, e: Entry): (w2: Words)
    ensures forall g: nat, k: nat :: Rd(w2, g, k) == if g == f && k == i then e else Rd(w, g, k)
  {
    w[(f, i) := e]
  }

  // Pages below IDENTITY_MAP_END (4 GiB) and below the 48-bit limit.
  const PAGES: nat := 0x10_0000
  const ALL_PAGES: nat := 0x10_0000_0000

  function L1(p: nat): nat { p % 512 }
  function L2(p: nat): nat { p / 512 % 512 }
  function L3(p: nat): nat { p / 512 / 512 % 512 }
  function L4(p: nat): nat { p / 512 / 512 / 512 % 512 }

  /** What a page translates to: the frame and the permissions in effect
      after all levels of the walk. */
  datatype Page = Page(pfn: nat, writable: bool, user: bool, nx: bool)

  /** The processor's walk. USER and WRITABLE must be set, and NX clear, at
      every level the walk passes through. */
  function Walk(w: Words, root: nat, p: nat): Option<Page> {
    var e4 := Rd(w, root, L4(p));
    if !e4.present then None else
    var e3 := Rd(w, e4.pfn, L3(p));
    if !e3.present then None else
    var u3, w3, n3 := e4.user && e3.user, e4.writable && e3.writable, e4.nx || e3.nx;
    if e3.ps then Some(Page(e3.pfn / 0x40000 * 0x40000 + p % 0x40000, w3, u3, n3)) else
    var e2 := Rd(w, e3.pfn, L2(p));
    if !e2.present then None else
    var u2, w2, n2 := u3 && e2.user, w3 && e2.writable, n3 || e2.nx;
    if e2.ps then Some(Page(e2.pfn / 512 * 512 + L1(p), w2, u2, n2)) else
    var e1 := Rd(w, e2.pfn, L1(p));
    if !e1.present then None else
    Some(Page(e1.pfn, w2 && e1.writable, u2 && e1.user, n2 || e1.nx))
  }

  // ---- the shape of a tree ---------------------------------------------------

  /** The place of a table frame in its tree. Naming every table frame's one
      place makes the tree free of aliasing. */
  datatype Role = RPml4 | RPdpt | RPd(i: nat) | RPt(i: nat, j: nat)
  type Roles = map<nat, Role>

  function Pdpt(w: Words, root: nat): nat { Rd(w, root, 0).pfn }
  function Pdpte(w: Words, root: nat, i: nat): Entry { Rd(w, Pdpt(w, root), i) }
  function Pd(w: Words, root: nat, i: nat): nat { Pdpte(w, root, i).pfn }
  function Pde(w: Words, root: nat, i: nat, j: nat): Entry { Rd(w, Pd(w, root, i), j) }
  function Pte(w: Words, root: nat, i: nat, j: nat, k: nat): Entry { Rd(w, Pde(w, root, i, j).pfn, k) }

  /** A directory entry never narrows what the leaf below it grants, except
      through USER. */
  predicate Dir(e: Entry) {
    e.present && e.writable && !e.nx && !e.ps
  }

  ghost predicate PdeOk(e: Entry, i: nat, j: nat, role: Roles) {
    && e.present && e.writable && !e.nx
    && (if e.ps then e.pfn % 512 == 0 && !e.user else e.pfn in role && role[e.pfn] == RPt(i, j))
  }

  ghost predicate Upper(w: Words, root: nat, role: Roles) {
    && root in role && role[root] == RPml4
    && Dir(Rd(w, root, 0))
    && (forall i :: 1 <= i < 512 ==> !Rd(w, root, i).present)
    && Pdpt(w, root) in role && role[Pdpt(w, root)] == RPdpt
    && (forall i :: 0 <= i < 4 ==>
          Dir(Pdpte(w, root, i)) && Pd(w, root, i) in role && role[Pd(w, root, i)] == RPd(i))
    && (forall i :: 4 <= i < 512 ==> !Pdpte(w, root, i).present)
  }

  ghost predicate Lower(w: Words, root: nat, role: Roles) {
    forall i, j :: 0 <= i < 4 && 0 <= j < 512 ==> PdeOk(Pde(w, root, i, j), i, j, role)
  }

  /** USER on a leaf is never masked by a directory above it, so raising USER
      on a directory can never uncover a leaf. */
  ghost predicate UserClosed(w: Words, root: nat) {
    forall i, j, k :: 0 <= i < 4 && 0 <= j < 512 && 0 <= k < 512
                      && !Pde(w, root, i, j).ps && Pte(w, root, i, j, k).present && Pte(w, root, i, j, k).user ==>
                        Pde(w, root, i, j).user && Pdpte(w, root, i).user && Rd(w, root, 0).user
  }

  ghost predicate Tree(w: Words, root: nat, role: Roles) {
    Upper(w, root, role) && Lower(w, root, role) && UserClosed(w, root)
  }

  /** Under the shape, the leaf entry alone decides. */
  function Leaf(w: Words, root: nat, p: nat): Option<Page> {
    var e2 := Pde(w, root, L3(p), L2(p));
    if e2.ps then Some(Page(e2.pfn + L1(p), true, false, false)) else
    var e1 := Pte(w, root, L3(p), L2(p), L1(p));
    if !e1.present then None else Some(Page(e1.pfn, e1.writable, e1.user, e1.nx))
  }

  lemma Levels(p: nat)
    ensures L1(p) < 512 && L2(p) < 512 && L3(p) < 512 && L4(p) < 512
    ensures p < PAGES <==> p < ALL_PAGES && L4(p) == 0 && L3(p) < 4
    ensures p < PAGES ==> p == (L3(p) * 512 + L2(p)) * 512 + L1(p)
  {
  }

  /** The four-level walk of a well-shaped tree sees exactly the leaf's own
      permissions, and nothing at or above 4 GiB. */
  lemma WalkIsLeaf(w: Words, root: nat, role: Roles, p: nat)
    requires Upper(w, root, role) && Lower(w, root, role) && UserClosed(w, root) && p < ALL_PAGES
    ensures Walk(w, root, p) == if p < PAGES then Leaf(w, root, p) else None
  {
    Levels(p);
    if p < PAGES {
      var e2 := Pde(w, root, L3(p), L2(p));
      assert PdeOk(e2, L3(p), L2(p), role);
      assert Dir(Pdpte(w, root, L3(p)));
      if !e2.ps && Pte(w, root, L3(p), L2(p), L1(p)).present {
        assert Pte(w, root, L3(p), L2(p), L1(p)).user ==> e2.user && Pdpte(w, root, L3(p)).user && Rd(w, root, 0).user;
      }
    } else if L4(p) == 0 {
      assert !Pdpte(w, root, L3(p)).present;
    } else {
      assert !Rd(w, root, L4(p)).present;
    }
  }

  // ---- changes that no walk can see ------------------------------------------

  /** `w2` differs from `w` on the tree's tables at most by USER raised on
      directory entries. */
  ghost predicate Promoted(w: Words, w2: Words, role: Roles) {
    forall f, k :: f in role && 0 <= k < 512 ==>
      || Rd(w2, f, k) == Rd(w, f, k)
      || (!role[f].RPt? && Rd(w, f, k).present && !Rd(w, f, k).ps && Rd(w2, f, k) == Rd(w, f, k).(user := true))
  }

  /** Words outside the frames in `s` are the same. */
  ghost predicate SameOutside(w: Words, w2: Words, s: set<nat>) {
    forall f, k :: f !in s ==> Rd(w2, f, k) == Rd(w, f, k)
  }

  ghost predicate SameWalks(w: Words, w2: Words, root: nat) {
    forall p :: 0 <= p < ALL_PAGES ==> Walk(w2, root, p) == Walk(w, root, p)
  }

  lemma PromoteKeepsTree(w: Words, w2: Words, root: nat, role: Roles)
    requires Tree(w, root, role) && Promoted(w, w2, role)
    ensures Tree(w2, root, role)
    ensures forall i, j :: 0 <= i < 4 && 0 <= j < 512 ==>
      Pde(w2, root, i, j).ps == Pde(w, root, i, j).ps && Pde(w2, root, i, j).pfn == Pde(w, root, i, j).pfn
  {
    assert Pdpt(w2, root) == Pdpt(w, root);
    forall i | 0 <= i < 4 ensures Pd(w2, root, i) == Pd(w, root, i) && Dir(Pdpte(w2, root, i)) {
    }
    forall i, j | 0 <= i < 4 && 0 <= j < 512
      ensures PdeOk(Pde(w2, root, i, j), i, j, role)
      ensures Pde(w2, root, i, j).ps == Pde(w, root, i, j).ps && Pde(w2, root, i, j).pfn == Pde(w, root, i, j).pfn
    {
      assert PdeOk(Pde(w, root, i, j), i, j, role);
    }
    forall i | 1 <= i < 512 ensures !Rd(w2, root, i).present { }
    forall i | 4 <= i < 512 ensures !Pdpte(w2, root, i).present { assert !Pdpte(w, root, i).present; }
    forall i, j, k | 0 <= i < 4 && 0 <= j < 512 && 0 <= k < 512
                     && !Pde(w2, root, i, j).ps && Pte(w2, root, i, j, k).present && Pte(w2, root, i, j, k).user
      ensures Pde(w2, root, i, j).user && Pdpte(w2, root, i).user && Rd(w2, root, 0).user
    {
      assert PdeOk(Pde(w, root, i, j), i, j, role);
      assert Pte(w2, root, i, j, k) == Pte(w, root, i, j, k);
    }
  }

  lemma PromoteKeepsWalks(w: Words, w2: Words, root: nat, role: Roles)
    requires Tree(w, root, role) && Promoted(w, w2, role)
    ensures Tree(w2, root, role) && SameWalks(w, w2, root)
  {
    PromoteKeepsTree(w, w2, root, role);
    forall p | 0 <= p < ALL_PAGES ensures Walk(w2, root, p) == Walk(w, root, p) {
      Levels(p);
      WalkIsLeaf(w, root, role, p);
      WalkIsLeaf(w2, root, role, p);
      if p < PAGES {
        assert PdeOk(Pde(w, root, L3(p), L2(p)), L3(p), L2(p), role);
      }
    }
  }

  /** A tree none of whose tables changed is the same tree. */
  lemma UntouchedTree(w: Words, w2: Words, root: nat, role: Roles, s: set<nat>)
    requires Tree(w, root, role) && SameOutside(w, w2, s) && role.Keys !! s
    ensures Tree(w2, root, role) && SameWalks(w, w2, root)
  {
    assert Promoted(w, w2, role);
    PromoteKeepsWalks(w, w2, root, role);
  }

  // ---- splitting a 2 MiB entry -------------------------------------------------

  /** `g` holds the 512 4 KiB entries that a 2 MiB entry `e` stands for. */
  ghost predicate SplitFrame(w: Words, g: nat, e: Entry) {
    forall k :: 0 <= k < 512 ==> Rd(w, g, k) == Entry(e.pfn + k, e.present, e.writable, e.user, false, e.nx)
  }

  lemma SplitKeepsWalks(w: Words, w2: Words, root: nat, role: Roles, i: nat, j: nat, g: nat, user: bool)
    requires Tree(w, root, role) && i < 4 && j < 512 && g !in role
    requires Pde(w, root, i, j).ps
    requires SplitFrame(w2, g, Pde(w, root, i, j))
    requires forall f, k :: f in role && 0 <= k < 512 ==>
      Rd(w2, f, k) == if f == Pd(w, root, i) && k == j then Pde(w, root, i, j).(pfn := g, ps := false, user := user)
                      else Rd(w, f, k)
    ensures Tree(w2, root, role[g := RPt(i, j)]) && SameWalks(w, w2, root)
  {
    var role2 := role[g := RPt(i, j)];
    assert Pdpt(w2, root) == Pdpt(w, root);
    forall i' | 0 <= i' < 512 ensures Pdpte(w2, root, i') == Pdpte(w, root, i') {
      assert role[Pd(w, root, i)] == RPd(i);
    }
    forall i' | 0 <= i' < 512 ensures Rd(w2, root, i') == Rd(w, root, i') { }
    assert Upper(w2, root, role2) by {
      forall i' | 4 <= i' < 512 ensures !Pdpte(w2, root, i').present { assert !Pdpte(w, root, i').present; }
    }
    forall i', j' | 0 <= i' < 4 && 0 <= j' < 512
      ensures PdeOk(Pde(w2, root, i', j'), i', j', role2)
      ensures Pde(w2, root, i', j') == if i' == i && j' == j then Pde(w, root, i, j).(pfn := g, ps := false, user := user)
                                      else Pde(w, root, i', j')
    {
      assert PdeOk(Pde(w, root, i', j'), i', j', role);
      assert role[Pd(w, root, i')] == RPd(i');
    }
    forall i', j', k | 0 <= i' < 4 && 0 <= j' < 512 && 0 <= k < 512 && !Pde(w2, root, i', j').ps
      ensures Pte(w2, root, i', j', k) == if i' == i && j' == j then
          Entry(Pde(w, root, i, j).pfn + k, true, true, false, false, false) else Pte(w, root, i', j', k)
    {
      assert PdeOk(Pde(w, root, i', j'), i', j', role);
    }
    assert UserClosed(w2, root);
    forall p | 0 <= p < ALL_PAGES ensures Walk(w2, root, p) == Walk(w, root, p) {
      Levels(p);
      WalkIsLeaf(w, root, role, p);
      WalkIsLeaf(w2, root, role2, p);
      if p < PAGES {
        assert PdeOk(Pde(w, root, L3(p), L2(p)), L3(p), L2(p), role);
      }
    }
  }

  // ---- writing a leaf ------------------------------------------------------------

  function PageOf(e: Entry): Option<Page> {
    if e.present then Some(Page(e.pfn, e.writable, e.user, e.nx)) else None
  }

  /** USER is set on all three directory levels above page `p`. */
  ghost predicate PathUser(w: Words, root: nat, p: nat) {
    Pde(w, root, L3(p), L2(p)).user && Pdpte(w, root, L3(p)).user && Rd(w, root, 0).user
  }

  lemma LeafWrite(w: Words, root: nat, role: Roles, p: nat, e: Entry)
    requires Tree(w, root, role) && p < PAGES
    requires !Pde(w, root, L3(p), L2(p)).ps
    requires e.user ==> PathUser(w, root, p)
    ensures var w2 := Wr(w, Pde(w, root, L3(p), L2(p)).pfn, L1(p), e);
            && Tree(w2, root, role)
            && (forall q :: 0 <= q < ALL_PAGES ==>
                  Walk(w2, root, q) == if q == p then PageOf(e) else Walk(w, root, q))
            && (forall i, j :: 0 <= i < 4 && 0 <= j < 512 ==> Pde(w2, root, i, j) == Pde(w, root, i, j))
  {
    Levels(p);
    var pt := Pde(w, root, L3(p), L2(p)).pfn;
    var w2 := Wr(w, pt, L1(p), e);
    assert PdeOk(Pde(w, root, L3(p), L2(p)), L3(p), L2(p), role);
    assert Pdpt(w2, root) == Pdpt(w, root);
    forall i | 0 <= i < 512 ensures Pdpte(w2, root, i) == Pdpte(w, root, i) && Rd(w2, root, i) == Rd(w, root, i) { }
    assert Upper(w2, root, role) by {
      forall i | 4 <= i < 512 ensures !Pdpte(w2, root, i).present { assert !Pdpte(w, root, i).present; }
    }
    forall i, j | 0 <= i < 4 && 0 <= j < 512 ensures Pde(w2, root, i, j) == Pde(w, root, i, j) {
      assert role[Pd(w, root, i)] == RPd(i);
    }
    assert Lower(w2, root, role);
    forall i, j, k | 0 <= i < 4 && 0 <= j < 512 && 0 <= k < 512 && !Pde(w2, root, i, j).ps
      ensures Pte(w2, root, i, j, k) == if i == L3(p) && j == L2(p) && k == L1(p) then e else Pte(w, root, i, j, k)
    {
      assert PdeOk(Pde(w, root, i, j), i, j, role);
    }
    assert UserClosed(w2, root);
    forall q | 0 <= q < ALL_PAGES
      ensures Walk(w2, root, q) == if q == p then PageOf(e) else Walk(w, root, q)
    {
      Levels(q);
      WalkIsLeaf(w, root, role, q);
      WalkIsLeaf(w2, root, role, q);
    }
  }
}
