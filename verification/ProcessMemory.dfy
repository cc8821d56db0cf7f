/** What a process owns and what it can reach (src/process.rs:96-111, 176-234):
    the invariant every memory operation of a process keeps, on values. Addresses
    are in pages, physical addresses in frames. */
module ProcessMemory {
  import opened Wrappers
  import opened Pmm
  import opened PageTable
  import opened Paging

  /** `n` pages from page `v` on, backed by the frames from `f` on; `shm` names
      the shared object the frames belong to, if they are not the process's own. */
  datatype Mapping = Mapping(v: nat, f: nat, n: nat, shm: Option<nat>)

  /** A process's memory: its page-table root and table frames, every frame it
      owns, and the ranges it recorded. */
  datatype Memory = Memory(root: nat, role: Roles, frames: seq<nat>, maps: seq<Mapping>)

  ghost function Data(m: Memory): set<nat> { SetOf(m.frames) - m.role.Keys }

  predicate UserPage(w: Words, root: nat, q: nat) {
    Walk(w, root, q).Some? && Walk(w, root, q).value.user
  }

  function FrameOf(w: Words, root: nat, q: nat): nat
    requires Walk(w, root, q).Some?
  {
    Walk(w, root, q).value.pfn
  }

  /** If frame `x` belongs to the private range `r`, then `q` is the page at which
      the range puts it. */
  ghost predicate InPlace(r: Mapping, q: nat, x: nat) {
    r.shm.None? && x in Range(r.f, r.n) ==> q == r.v + (x - r.f)
  }

  /** The frame behind a user page is the process's own data or belongs to a live
      shared object, and sits where its range puts it. */
  ghost predicate Backed(m: Memory, live: set<nat>, q: nat, x: nat) {
    && (x in Data(m) || x in live)
    && forall a :: 0 <= a < |m.maps| ==> InPlace(m.maps[a], q, x)
  }

  ghost predicate RecordOk(w: Words, m: Memory, live: set<nat>, r: Mapping) {
    && r.n > 0 && r.v + r.n <= PAGES && AllSplit(w, m.root, r.v, r.n)
    && Range(r.f, r.n) <= (if r.shm.None? then Data(m) else live)
  }

  ghost predicate Apart(r: Mapping, t: Mapping) {
    r.shm.None? && t.shm.None? ==> Range(r.f, r.n) !! Range(t.f, t.n)
  }

  /** The ownership invariant of one process, given the frames of all live shared
      objects. */
  ghost predicate Owns(w: Words, m: Memory, live: set<nat>) {
    && Tree(w, m.root, m.role)
    && Distinct(m.frames) && m.role.Keys <= SetOf(m.frames)
    && (forall x :: x in m.frames ==> x < FRAME_COUNT)
    && (forall a :: 0 <= a < |m.maps| ==> RecordOk(w, m, live, m.maps[a]))
    && (forall a, b :: 0 <= a < b < |m.maps| ==> Apart(m.maps[a], m.maps[b]))
    && (forall q :: 0 <= q < ALL_PAGES && UserPage(w, m.root, q) ==> Backed(m, live, q, FrameOf(w, m.root, q)))
  }

  /** Page `q` lies in the recorded range. */
  predicate Covers(r: Mapping, q: nat) { r.v <= q < r.v + r.n }

  /** No page lies in two recorded ranges. */
  ghost predicate NoOverlap(maps: seq<Mapping>) {
    forall a, b, q: nat :: 0 <= a < b < |maps| && Covers(maps[a], q) ==> !Covers(maps[b], q)
  }

  /** The recorded ranges do not overlap and agree with the page table: a user page
      inside a range translates to the frame the range says. */
  ghost predicate Agrees(w: Words, m: Memory) {
    && NoOverlap(m.maps)
    && forall a, q: nat :: 0 <= a < |m.maps| && Covers(m.maps[a], q) && UserPage(w, m.root, q) ==>
      FrameOf(w, m.root, q) == m.maps[a].f + (q - m.maps[a].v)
  }

  /** Pages [v, v+n) lie outside every recorded range. */
  ghost predicate Clear(m: Memory, v: nat, n: nat) {
    forall a, q: nat :: 0 <= a < |m.maps| && v <= q < v + n ==> !Covers(m.maps[a], q)
  }

  /** What one process's step may do to the rest of the system: it takes frames
      only from the free ones, gives back only its own, and writes only to its own
      table frames. */
  ghost predicate Local(w: Words, free: set<nat>, m: Memory, w2: Words, free2: set<nat>, m2: Memory) {
    && m2.root == m.root
    && SetOf(m2.frames) - SetOf(m.frames) <= free
    && free2 == free - SetOf(m2.frames) + (SetOf(m.frames) - SetOf(m2.frames))
    && SameOutside(w, w2, m2.role.Keys)
    && m2.role.Keys <= SetOf(m2.frames)
    && m.role.Keys <= m2.role.Keys
  }

  // ---- steps that keep the invariant ---------------------------------------------

  ghost function Run(f: nat, n: nat): seq<nat> { seq(n, i requires 0 <= i < n => f + i) }

  lemma RunSet(f: nat, n: nat)
    ensures SetOf(Run(f, n)) == Range(f, n) && Distinct(Run(f, n))
  {
    forall x: nat ensures x in SetOf(Run(f, n)) <==> x in Range(f, n) {
      if x in Range(f, n) {
        assert InRun(x, f, n) && Run(f, n)[x - f] == x;
      }
      if x in Run(f, n) {
        assert InRun(x, f, n);
      }
    }
  }

  lemma SetOfConcat(a: seq<nat>, b: seq<nat>)
    ensures SetOf(a + b) == SetOf(a) + SetOf(b)
    ensures Distinct(a) && Distinct(b) && SetOf(a) !! SetOf(b) ==> Distinct(a + b)
  {
    if Distinct(a) && Distinct(b) && SetOf(a) !! SetOf(b) {
      forall x, y | 0 <= x < y < |a + b| ensures (a + b)[x] != (a + b)[y] {
        if x < |a| <= y {
          assert (a + b)[x] in SetOf(a) && (a + b)[y] in SetOf(b);
        }
      }
    }
  }

  /** Taking a run of free frames. */
  lemma TakeKeeps(w: Words, m: Memory, live: set<nat>, free: set<nat>, f: nat, n: nat)
    requires Owns(w, m, live) && free !! SetOf(m.frames) && free !! live
    requires Range(f, n) <= free && f + n <= FRAME_COUNT
    ensures var m2 := m.(frames := m.frames + Run(f, n));
            && Owns(w, m2, live) && SetOf(m2.frames) == SetOf(m.frames) + Range(f, n)
            && Local(w, free, m, w, free - Range(f, n), m2)
            && Data(m2) == Data(m) + Range(f, n)
            && (forall q :: 0 <= q < ALL_PAGES && UserPage(w, m.root, q) ==> FrameOf(w, m.root, q) !in Range(f, n))
  {
    RunSet(f, n);
    SetOfConcat(m.frames, Run(f, n));
    var m2 := m.(frames := m.frames + Run(f, n));
    assert Data(m2) == Data(m) + Range(f, n);
    forall q | 0 <= q < ALL_PAGES && UserPage(w, m.root, q)
      ensures Backed(m2, live, q, FrameOf(w, m.root, q)) && FrameOf(w, m.root, q) !in Range(f, n)
    {
      assert Backed(m, live, q, FrameOf(w, m.root, q));
    }
    forall x | x in m2.frames ensures x < FRAME_COUNT {
      if x in Run(f, n) {
        assert x in Range(f, n) && InRun(x, f, n);
      }
    }
    forall a | 0 <= a < |m.maps| ensures RecordOk(w, m2, live, m.maps[a]) {
      assert RecordOk(w, m, live, m.maps[a]);
    }
  }

  lemma StillBacked(m: Memory, m2: Memory, live: set<nat>, q: nat, x: nat)
    requires Backed(m, live, q, x) && Data(m2) == Data(m) && m2.maps == m.maps
    ensures Backed(m2, live, q, x)
  {
  }

  /** The frame behind a user page after a mapping was backed before. */
  lemma MappedFrame(w: Words, w2: Words, m: Memory, live: set<nat>, v: nat, f: nat, k: nat, perm: Perm, q: nat)
    requires Mapped(w, w2, m.root, v, f, k, perm) && q < ALL_PAGES && UserPage(w2, m.root, q)
    requires forall p: nat, x: nat :: v <= p < v + k && x == f + (p - v) ==> Backed(m, live, p, x)
    requires UserPage(w, m.root, q) ==> Backed(m, live, q, FrameOf(w, m.root, q))
    ensures Backed(m, live, q, FrameOf(w2, m.root, q))
  {
    if v <= q < v + k {
      assert FrameOf(w2, m.root, q) == f + (q - v);
    } else {
      assert Walk(w2, m.root, q) == Walk(w, m.root, q);
    }
  }

  /** Mapping pages onto frames that are the process's own or shared, in place. */
  lemma MapKeeps(w: Words, w2: Words, m: Memory, live: set<nat>, free: set<nat>, free2: set<nat>,
                 role2: Roles, added: seq<nat>, v: nat, f: nat, k: nat, perm: Perm)
    requires Owns(w, m, live) && free !! SetOf(m.frames) && free !! live
    requires forall x :: x in free ==> x < FRAME_COUNT
    requires Grown(w, w2, m.root, m.role, role2, free, free2, added)
    requires Mapped(w, w2, m.root, v, f, k, perm)
    requires forall q: nat, x: nat :: v <= q < v + k && x == f + (q - v) ==> Backed(m, live, q, x)
    ensures var m2 := m.(role := role2, frames := m.frames + added);
            Owns(w2, m2, live) && Local(w, free, m, w2, free2, m2) && Data(m2) == Data(m)
  {
    var m2 := m.(role := role2, frames := m.frames + added);
    SetOfConcat(m.frames, added);
    assert Data(m2) == Data(m);
    forall q: nat | q < ALL_PAGES && UserPage(w2, m.root, q)
      ensures Backed(m2, live, q, FrameOf(w2, m.root, q))
    {
      var x := FrameOf(w2, m.root, q);
      MappedFrame(w, w2, m, live, v, f, k, perm, q);
      StillBacked(m, m2, live, q, x);
    }
    forall x | x in m2.frames ensures x < FRAME_COUNT {
      assert x in m.frames || x in SetOf(added);
    }
    forall a | 0 <= a < |m.maps| ensures RecordOk(w2, m2, live, m.maps[a]) {
      assert RecordOk(w, m, live, m.maps[a]);
      PageTables.KeepSplit(w, w2, m.root, m.maps[a].v, m.maps[a].n);
    }
  }

  /** Recording a range whose frames no user page outside it reaches. */
  lemma RecordKeeps(w: Words, m: Memory, live: set<nat>, r: Mapping)
    requires Owns(w, m, live) && RecordOk(w, m, live, r)
    requires forall a :: 0 <= a < |m.maps| ==> Apart(m.maps[a], r)
    requires forall q :: 0 <= q < ALL_PAGES && UserPage(w, m.root, q) ==> InPlace(r, q, FrameOf(w, m.root, q))
    ensures Owns(w, m.(maps := m.maps + [r]), live)
  {
    var m2 := m.(maps := m.maps + [r]);
    assert Data(m2) == Data(m);
    forall q | 0 <= q < ALL_PAGES && UserPage(w, m.root, q) ensures Backed(m2, live, q, FrameOf(w, m.root, q)) {
      assert Backed(m, live, q, FrameOf(w, m.root, q));
    }
    forall a | 0 <= a < |m2.maps| ensures RecordOk(w, m2, live, m2.maps[a]) {
      if a < |m.maps| {
        assert RecordOk(w, m, live, m.maps[a]);
      }
    }
  }

  /** Clearing the pages of recorded range `a` and dropping it; a private range
      gives its frames back. */
  lemma DropKeeps(w: Words, w2: Words, m: Memory, live: set<nat>, a: nat, frames2: seq<nat>, free: set<nat>)
    requires Owns(w, m, live) && a < |m.maps|
    requires Grown(w, w2, m.root, m.role, m.role, free, free, []) && Unmapped(w, w2, m.root, m.maps[a].v, m.maps[a].n)
    requires Distinct(frames2)
    requires forall x: nat :: x in frames2 <==> x in m.frames && (m.maps[a].shm.None? ==> x !in Range(m.maps[a].f, m.maps[a].n))
    ensures Owns(w2, m.(frames := frames2, maps := m.maps[..a] + m.maps[a + 1..]), live)
  {
    var m2 := m.(frames := frames2, maps := m.maps[..a] + m.maps[a + 1..]);
    var r := m.maps[a];
    assert RecordOk(w, m, live, r);
    forall b | 0 <= b < |m2.maps| ensures RecordOk(w2, m2, live, m2.maps[b]) && m2.maps[b] in m.maps {
      var c := if b < a then b else b + 1;
      assert m2.maps[b] == m.maps[c] && RecordOk(w, m, live, m.maps[c]);
      PageTables.KeepSplit(w, w2, m.root, m.maps[c].v, m.maps[c].n);
      assert Apart(m.maps[if c < a then c else a], m.maps[if c < a then a else c]);
    }
    forall b, c | 0 <= b < c < |m2.maps| ensures Apart(m2.maps[b], m2.maps[c]) {
      assert Apart(m.maps[if b < a then b else b + 1], m.maps[if c < a then c else c + 1]);
    }
    forall q | 0 <= q < ALL_PAGES && UserPage(w2, m.root, q) ensures Backed(m2, live, q, FrameOf(w2, m.root, q)) {
      var x := FrameOf(w2, m.root, q);
      assert UserPage(w, m.root, q) && Backed(m, live, q, x) && InPlace(r, q, x);
      assert x in Range(r.f, r.n) ==> InRun(x, r.f, r.n);
    }
  }
}
