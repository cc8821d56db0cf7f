/** Writing an entry into a directory (src/fat.rs:500-634): the search for free slots, the
    growth of a full directory, and what both do to the listing. */
module FatEntries {
  import opened Wrappers
  import opened Bytes
  import opened Fat
  import opened FatVolume
  import opened Directory
  import opened LongName
  import opened Insertion
  import opened FatFiles

  ghost predicate Whole(entries: seq<seq<Byte>>) { forall k :: 0 <= k < |entries| ==> |entries[k]| == 32 }

  /** The sector with `entries` put over its slots from `i` on. */
  ghost function Overlay(sector: seq<Byte>, i: nat, entries: seq<seq<Byte>>): (r: seq<Byte>)
    requires |sector| == 512 && Whole(entries)
  {
    seq(512, b requires 0 <= b < 512 => if i <= b / 32 < i + |entries| then entries[b / 32 - i][b % 32] else sector[b])
  }

  method OverlaySector(sector: seq<Byte>, at: nat, entries: seq<seq<Byte>>) returns (r: seq<Byte>)
    requires |sector| == 512 && Whole(entries) && at % 32 == 0 && at + 32 * |entries| <= 512
    ensures r == Overlay(sector, at / 32, entries)
  {
    r := sector;
    var k: nat := 0;
    ghost var i := at / 32;
    assert r == Overlay(sector, i, entries[..0]);
    while k < |entries|
      invariant k <= |entries| && r == Overlay(sector, i, entries[..k])
    {
      OverlayStep(sector, i, entries, k);
      r := r[..at + 32 * k] + entries[k] + r[at + 32 * k + 32..];
      k := k + 1;
    }
    assert entries[..|entries|] == entries;
  }

  lemma OverlayStep(sector: seq<Byte>, i: nat, entries: seq<seq<Byte>>, k: nat)
    requires |sector| == 512 && Whole(entries) && k < |entries| && i + |entries| <= 16
    ensures var r, at := Overlay(sector, i, entries[..k]), 32 * (i + k);
            r[..at] + entries[k] + r[at + 32..] == Overlay(sector, i, entries[..k + 1])
  {
    var r, r2, at := Overlay(sector, i, entries[..k]), Overlay(sector, i, entries[..k + 1]), 32 * (i + k);
    var s := r[..at] + entries[k] + r[at + 32..];
    forall b: nat | b < 512 ensures s[b] == r2[b] {
      var q, m := b / 32, b % 32;
      assert b == 32 * q + m;
      if q == i + k {
        assert s[b] == entries[k][m];
      } else {
        assert s[b] == r[b];
      }
    }
  }

  lemma OverlaySlots(sector: seq<Byte>, i: nat, entries: seq<seq<Byte>>, cluster: nat, s: nat)
    requires |sector| == 512 && Whole(entries) && i + |entries| <= 16
    ensures var x := SectorSlots(sector, cluster, s);
            SectorSlots(Overlay(sector, i, entries), cluster, s)
            == x[..i] + Placed(entries, cluster, 512 * s + 32 * i) + x[i + |entries|..]
  {
    var x, x2 := SectorSlots(sector, cluster, s), SectorSlots(Overlay(sector, i, entries), cluster, s);
    var y := x[..i] + Placed(entries, cluster, 512 * s + 32 * i) + x[i + |entries|..];
    forall j: nat | j < 16 ensures x2[j] == y[j] {
      OverlaySlot(sector, i, entries, j);
    }
  }

  lemma OverlaySlot(sector: seq<Byte>, i: nat, entries: seq<seq<Byte>>, j: nat)
    requires |sector| == 512 && Whole(entries) && i + |entries| <= 16 && j < 16
    ensures Overlay(sector, i, entries)[32 * j..32 * j + 32] == if i <= j < i + |entries| then entries[j - i] else sector[32 * j..32 * j + 32]
  {
    var m := Overlay(sector, i, entries)[32 * j..32 * j + 32];
    var w := if i <= j < i + |entries| then entries[j - i] else sector[32 * j..32 * j + 32];
    forall b: nat | b < 32 ensures m[b] == w[b] {
      assert (32 * j + b) % 32 == b && (32 * j + b) / 32 == j;
    }
  }

  // ---- where the slots go -------------------------------------------------------------------

  /** The only data sector that changed is the first one of the directory's cluster `p`,
      where `entries` were put over the slots from `i` on. */
  ghost predicate PlacedIn(g: Geometry, disk: Disk, disk2: Disk, c: seq<nat>, p: nat, i: nat, entries: seq<seq<Byte>>) {
    && p < |c| && c[p] >= 2 && Whole(entries) && i + |entries| <= 16
    && (var lba := Base(g, c[p]);
        && (forall x: nat :: x >= g.firstData && x != lba ==> Sector(disk2, x) == Sector(disk, x))
        && Sector(disk2, lba) == Overlay(Sector(disk, lba), i, entries))
  }

  /** The slots from `n` on, the first of which is at `offset` in `cluster`, became `entries`;
      all others stayed. */
  ghost predicate WrittenAt(g: Geometry, disk: Disk, disk2: Disk, c: seq<nat>, n: nat, cluster: nat, offset: nat, entries: seq<seq<Byte>>)
    requires InRange(g, c)
  {
    var ss := DirSlots(g, disk, c);
    && n + |entries| <= |ss| && (entries != [] ==> ss[n].cluster == cluster && ss[n].offset == offset)
    && DirSlots(g, disk2, c) == ss[..n] + Placed(entries, cluster, offset) + ss[n + |entries|..]
  }

  /** The slots that were there before. */
  ghost predicate WasRun(ss: seq<Slot>, n: nat, sector: seq<Byte>, cluster: nat, i: nat, k: nat)
    requires |sector| == 512 && n + k <= |ss| && i + k <= 16
  {
    ss[n..n + k] == SectorSlots(sector, cluster, 0)[i..i + k]
  }

  /** The first sector of a cluster within a directory. */
  lemma PlacedSlots(g: Geometry, disk: Disk, disk2: Disk, c: seq<nat>, p: nat, i: nat, entries: seq<seq<Byte>>) returns (n: nat)
    requires Good(g) && InRange(g, c) && NoDup(c) && PlacedIn(g, disk, disk2, c, p, i, entries)
    ensures WrittenAt(g, disk, disk2, c, n, c[p], 32 * i, entries)
    ensures WasRun(DirSlots(g, disk, c), n, Sector(disk, Base(g, c[p])), c[p], i, |entries|)
  {
    var cluster, sector := c[p], Sector(disk, Base(g, c[p]));
    var a, b := PlacedSplit(g, disk, disk2, c, p, i, entries);
    OverlaySlots(sector, i, entries, cluster, 0);
    n := SplitPlaced(a, SectorSlots(sector, cluster, 0), b, cluster, i, entries);
  }

  lemma PlacedSplit(g: Geometry, disk: Disk, disk2: Disk, c: seq<nat>, p: nat, i: nat, entries: seq<seq<Byte>>) returns (a: seq<Slot>, b: seq<Slot>)
    requires Good(g) && InRange(g, c) && NoDup(c) && PlacedIn(g, disk, disk2, c, p, i, entries)
    ensures var sector := Sector(disk, Base(g, c[p]));
            && DirSlots(g, disk, c) == a + SectorSlots(sector, c[p], 0) + b
            && DirSlots(g, disk2, c) == a + SectorSlots(Overlay(sector, i, entries), c[p], 0) + b
  {
    var lba := Base(g, c[p]);
    var disk3 := disk[lba := Sector(disk2, lba)];
    FirstSectorData(g, c[p]);
    SlotsSame(g, disk3, disk2, c);
    a, b := DirSplit(g, disk, disk3, c, p, 0, lba);
  }

  lemma SplitPlaced(a: seq<Slot>, x: seq<Slot>, b: seq<Slot>, cluster: nat, i: nat, entries: seq<seq<Byte>>) returns (n: nat)
    requires i + |entries| <= |x|
    ensures var ss, placed, j := a + x + b, Placed(entries, cluster, 32 * i), i + |entries|;
            && n + |entries| <= |ss| && a + (x[..i] + placed + x[j..]) + b == ss[..n] + placed + ss[n + |entries|..]
            && ss[n..n + |entries|] == x[i..j] && (entries != [] ==> ss[n] == x[i])
  {
    var placed, j := Placed(entries, cluster, 32 * i), i + |entries|;
    n := |a| + i;
    Middle2(a, x[..i], placed, x[j..], b);
    Positions(a, x, i, j, b);
  }

  lemma FirstSectorData(g: Geometry, cluster: nat)
    requires Good(g) && 2 <= cluster < g.fatSize * 128
    ensures Base(g, cluster) >= g.firstData
  {
    MulLe(0, cluster - 2, g.spc);
  }

  lemma Positions(a: seq<Slot>, x: seq<Slot>, i: nat, j: nat, b: seq<Slot>)
    requires i <= j <= |x|
    ensures var ss, n := a + x + b, |a| + i;
            ss[..n] == a + x[..i] && ss[n..|a| + j] == x[i..j] && ss[|a| + j..] == x[j..] + b
  {
  }

  lemma Middle2(a: seq<Slot>, x: seq<Slot>, y: seq<Slot>, z: seq<Slot>, b: seq<Slot>)
    ensures a + (x + y + z) + b == a + x + y + (z + b)
  {
  }

  // ---- the places of a directory differ ------------------------------------------------------------

  lemma JoinPlaces(a: seq<Slot>, b: seq<Slot>)
    requires PlacesDiffer(a) && PlacesDiffer(b) && forall i, j :: 0 <= i < |a| && 0 <= j < |b| ==> !SamePlace(a[i], b[j])
    ensures PlacesDiffer(a + b)
  {
    forall i, j | 0 <= i < j < |a + b| ensures !SamePlace((a + b)[i], (a + b)[j]) {
      if i >= |a| {
        assert !SamePlace(b[i - |a|], b[j - |a|]);
      } else if j < |a| {
        assert !SamePlace(a[i], a[j]);
      } else {
        assert !SamePlace(a[i], b[j - |a|]);
      }
    }
  }

  lemma {:induction false} ClusterDiffers(g: Geometry, disk: Disk, cluster: nat, s: nat)
    requires cluster >= 2
    ensures PlacesDiffer(ClusterSlots(g, disk, cluster, s))
    decreases g.spc - s
  {
    if s < g.spc {
      var first, rest := SectorSlots(Sector(disk, Base(g, cluster) + s), cluster, s), ClusterSlots(g, disk, cluster, s + 1);
      ClusterDiffers(g, disk, cluster, s + 1);
      ClusterPlaces(g, disk, cluster, s + 1);
      JoinPlaces(first, rest);
    }
  }

  /** No two slots of a directory are at the same place. */
  lemma {:induction false} DirDiffers(g: Geometry, disk: Disk, c: seq<nat>)
    requires InRange(g, c) && NoDup(c)
    ensures PlacesDiffer(DirSlots(g, disk, c))
    decreases |c|
  {
    if c != [] {
      var first, rest := ClusterSlots(g, disk, c[0], 0), DirSlots(g, disk, c[1..]);
      ClusterDiffers(g, disk, c[0], 0);
      ClusterPlaces(g, disk, c[0], 0);
      DirDiffers(g, disk, c[1..]);
      DirWithin(g, disk, c[1..]);
      forall i, j | 0 <= i < |first| && 0 <= j < |rest| ensures !SamePlace(first[i], rest[j]) {
        assert Within(g, c[1..], rest[j]);
      }
      JoinPlaces(first, rest);
    }
  }

  // ---- what the listing becomes --------------------------------------------------------------------

  ghost predicate FreeAt(sector: seq<Byte>, i: nat, n: nat)
    requires |sector| == 512
  {
    i + n <= 16 && forall j: nat :: i <= j < i + n ==> sector[32 * j] == 0x00 || sector[32 * j] == 0xE5
  }

  /** `k` slots from `n` on, which were free, were replaced by those of a name: nothing is
      lost, and the entry is listed unless an end mark stands before it. Where the run
      reaches the end mark, what lies behind it is listed as well. */
  ghost predicate IsInserted(ss: seq<Slot>, n: nat, k: nat, was: seq<DirEntry>, now: seq<DirEntry>, name: seq<nat>, m: Meta, cluster: nat, offset: nat)
    requires Slots(ss) && n + k <= |ss|
  {
    var st, rest := Run(START, ss[..n]), Found(ss[n + k..]);
    var e := EntryFor(ShownAfter(name, st.parts), name, m, cluster, offset);
    if st.ended then now == was == st.out
    else now == Added(st.out, e) + rest && was == if HasEnd(ss[n..n + k]) then st.out else st.out + rest
  }

  lemma InsertedKeeps(ss: seq<Slot>, n: nat, k: nat, was: seq<DirEntry>, now: seq<DirEntry>, name: seq<nat>, m: Meta, cluster: nat, offset: nat)
    requires Slots(ss) && n + k <= |ss| && IsInserted(ss, n, k, was, now, name, m, cluster, offset)
    ensures Subset(was, now)
  {
  }

  lemma FreeRunSlots(ss: seq<Slot>, n: nat, sector: seq<Byte>, cluster: nat, i: nat, k: nat)
    requires |sector| == 512 && n + k <= |ss| && FreeAt(sector, i, k) && WasRun(ss, n, sector, cluster, i, k)
    ensures FreeSlots(ss[n..n + k])
  {
    var x, run := SectorSlots(sector, cluster, 0), ss[n..n + k];
    forall j | 0 <= j < k ensures |run[j].bytes| == 32 && IsFree(run[j]) {
      assert run[j] == x[i + j] && x[i + j].bytes[0] == sector[32 * (i + j)];
    }
  }

  lemma ThreeParts(ss: seq<Slot>, n: nat, k: nat)
    requires n + k <= |ss|
    ensures ss == ss[..n] + ss[n..n + k] + ss[n + k..]
  {
  }

  lemma PlacedOk(name: seq<nat>, m: Meta, cluster: nat, offset: nat)
    requires ValidName(name)
    ensures Slots(Placed(SlotsFor(name, m), cluster, offset)) && |SlotsFor(name, m)| > 0
  {
    SlotsLook(name, m);
  }

  /** Putting a name's slots over a free run of the first sector of a cluster. */
  lemma InsertedListing(g: Geometry, disk: Disk, disk2: Disk, c: seq<nat>, p: nat, i: nat, name: seq<nat>, m: Meta, k: nat) returns (n: nat)
    requires Good(g) && InRange(g, c) && NoDup(c) && ValidName(name) && MetaOk(m) && k == |SlotsFor(name, m)|
    requires PlacedIn(g, disk, disk2, c, p, i, SlotsFor(name, m)) && FreeAt(Sector(disk, Base(g, c[p])), i, k)
    ensures WrittenAt(g, disk, disk2, c, n, c[p], 32 * i, SlotsFor(name, m))
    ensures IsInserted(DirSlots(g, disk, c), n, k, Scanned(g, disk, c).out, Scanned(g, disk2, c).out, name, m, c[p], 32 * i)
  {
    n := PlacedSlots(g, disk, disk2, c, p, i, SlotsFor(name, m));
    FreeRunSlots(DirSlots(g, disk, c), n, Sector(disk, Base(g, c[p])), c[p], i, k);
    PlacedOk(name, m, c[p], 32 * i);
    InsertFree(DirSlots(g, disk, c), DirSlots(g, disk2, c), n, k, name, m, c[p], 32 * i);
  }

  lemma InsertFree(ss: seq<Slot>, ss2: seq<Slot>, n: nat, k: nat, name: seq<nat>, m: Meta, cluster: nat, offset: nat)
    requires Slots(ss) && Slots(ss2) && k > 0 && n + k <= |ss| && ValidName(name) && MetaOk(m) && FreeSlots(ss[n..n + k])
    requires ss2 == ss[..n] + Placed(SlotsFor(name, m), cluster, offset) + ss[n + k..]
    ensures IsInserted(ss, n, k, Run(START, ss).out, Run(START, ss2).out, name, m, cluster, offset)
  {
    PlacedOk(name, m, cluster, offset);
    NewListing(ss[..n], ss[n + k..], name, m, cluster, offset);
    OldListing(ss[..n], ss[n..n + k], ss[n + k..]);
    ThreeParts(ss, n, k);
  }

  /** Whatever the slots held: every entry listed before is still listed exactly when, unless
      an end mark stands before them, none of them yields an entry and no long name begun in
      them belongs to the next entry. */
  lemma {:induction false} SurvivesExactly(g: Geometry, disk: Disk, disk2: Disk, c: seq<nat>, p: nat, i: nat, name: seq<nat>, m: Meta, k: nat) returns (n: nat)
    requires Good(g) && InRange(g, c) && NoDup(c) && ValidName(name) && MetaOk(m) && k == |SlotsFor(name, m)|
    requires PlacedIn(g, disk, disk2, c, p, i, SlotsFor(name, m))
    ensures WrittenAt(g, disk, disk2, c, n, c[p], 32 * i, SlotsFor(name, m))
    ensures Survive(DirSlots(g, disk, c), n, k, Scanned(g, disk, c).out, Scanned(g, disk2, c).out, name, m, c[p], 32 * i)
  {
    n := PlacedSlots(g, disk, disk2, c, p, i, SlotsFor(name, m));
    SurviveAt(g, disk, disk2, c, n, c[p], 32 * i, name, m, k);
  }

  lemma SurviveAt(g: Geometry, disk: Disk, disk2: Disk, c: seq<nat>, n: nat, cluster: nat, offset: nat, name: seq<nat>, m: Meta, k: nat)
    requires InRange(g, c) && NoDup(c) && ValidName(name) && MetaOk(m) && k == |SlotsFor(name, m)|
    requires WrittenAt(g, disk, disk2, c, n, cluster, offset, SlotsFor(name, m))
    ensures Survive(DirSlots(g, disk, c), n, k, Scanned(g, disk, c).out, Scanned(g, disk2, c).out, name, m, cluster, offset)
  {
    DirDiffers(g, disk, c);
    InsertAnywhere(DirSlots(g, disk, c), DirSlots(g, disk2, c), n, k, name, m, cluster, offset);
  }

  /** The condition under which replacing the slots loses no entry, for an entry that was
      not listed already. */
  ghost predicate Survive(ss: seq<Slot>, n: nat, k: nat, was: seq<DirEntry>, now: seq<DirEntry>, name: seq<nat>, m: Meta, cluster: nat, offset: nat)
    requires Slots(ss) && n + k <= |ss|
  {
    var st, run := Run(START, ss[..n]), ss[n..n + k];
    var st1 := Run(st, run);
    EntryFor(ShownAfter(name, st.parts), name, m, cluster, offset) !in was ==>
      (Subset(was, now) <==> (st.ended || (NoneYields(st, run) && (st1.ended || NextKept(st1.parts, [], ss[n + k..])))))
  }

  lemma InsertAnywhere(ss: seq<Slot>, ss2: seq<Slot>, n: nat, k: nat, name: seq<nat>, m: Meta, cluster: nat, offset: nat)
    requires Slots(ss) && Slots(ss2) && PlacesDiffer(ss) && n + k <= |ss| && ValidName(name) && MetaOk(m)
    requires ss2 == ss[..n] + Placed(SlotsFor(name, m), cluster, offset) + ss[n + k..]
    ensures Survive(ss, n, k, Run(START, ss).out, Run(START, ss2).out, name, m, cluster, offset)
  {
    PlacedOk(name, m, cluster, offset);
    var before, run, after := ss[..n], ss[n..n + k], ss[n + k..];
    NewListing(before, after, name, m, cluster, offset);
    ThreeParts(ss, n, k);
    var st := Run(START, before);
    if EntryFor(ShownAfter(name, st.parts), name, m, cluster, offset) !in Run(START, ss).out {
      SurvivesIff(before, run, after, name, m, cluster, offset);
    }
  }

  // ---- the search for free slots ---------------------------------------------------------------------

  /** The first of the runs of `n` free slots in a sector. */
  ghost predicate FirstIn(sector: seq<Byte>, n: nat, i: nat)
    requires |sector| == 512
  {
    FreeAt(sector, i, n) && forall j: nat :: j < i ==> !FreeAt(sector, j, n)
  }

  ghost predicate NoneIn(sector: seq<Byte>, n: nat)
    requires |sector| == 512
  {
    forall j: nat :: !FreeAt(sector, j, n)
  }

  /** `run` is the length of the free run that ends before slot `k`. */
  ghost predicate RunEnds(sector: seq<Byte>, k: nat, run: nat)
    requires |sector| == 512
  {
    run <= k <= 16 && FreeAt(sector, k - run, run) && (run < k ==> !FreeAt(sector, k - run - 1, 1))
  }

  lemma RunNext(sector: seq<Byte>, k: nat, run: nat, n: nat)
    requires |sector| == 512 && RunEnds(sector, k, run) && k < 16 && run < n && n > 0
    requires forall j: nat :: j + n <= k ==> !FreeAt(sector, j, n)
    ensures var next := if sector[32 * k] == 0x00 || sector[32 * k] == 0xE5 then run + 1 else 0;
            && RunEnds(sector, k + 1, next)
            && (next < n ==> forall j: nat :: j + n <= k + 1 ==> !FreeAt(sector, j, n))
            && (next >= n ==> next == n && FirstIn(sector, n, k + 1 - n))
  {
    var free := sector[32 * k] == 0x00 || sector[32 * k] == 0xE5;
    var next := if free then run + 1 else 0;
    if next < n {
      forall j: nat | j + n <= k + 1 ensures !FreeAt(sector, j, n) {
        if j + n == k + 1 {
          var q := if free then k - run - 1 else k;
          assert j <= q < j + n && !FreeAt(sector, q, 1);
          assert sector[32 * q] != 0x00 && sector[32 * q] != 0xE5;
        }
      }
    }
  }

  /** The first run of `n` free slots in a sector, or that there is none. */
  method RunInSector(sector: seq<Byte>, n: nat) returns (r: Option<nat>)
    requires |sector| == 512 && n > 0
    ensures if r.Some? then r.value % 32 == 0 && FirstIn(sector, n, r.value / 32) else NoneIn(sector, n)
  {
    var run: nat, k: nat := 0, 0;
    r := None;
    while k < 16 && r.None?
      invariant k <= 16
      invariant r.None? ==> run < n && RunEnds(sector, k, run) && forall j: nat :: j + n <= k ==> !FreeAt(sector, j, n)
      invariant r.Some? ==> r.value % 32 == 0 && FirstIn(sector, n, r.value / 32)
      decreases 16 - k
    {
      RunNext(sector, k, run, n);
      var here: nat := sector[32 * k];
      run := if here == 0x00 || here == 0xE5 then run + 1 else 0;
      k := k + 1;
      if run == n {
        r := Some(32 * k - n * 32);
      }
    }
  }

  ghost predicate NoneInCluster(g: Geometry, disk: Disk, cluster: nat, s: nat, n: nat)
    requires cluster >= 2
  {
    forall k: nat :: k < s ==> NoneInSector(g, disk, cluster, k, n)
  }

  ghost predicate NoneInSector(g: Geometry, disk: Disk, cluster: nat, k: nat, n: nat)
    requires cluster >= 2
  {
    NoneIn(Sector(disk, Base(g, cluster) + k), n)
  }

  /** No sector of the first `p` clusters has a run of `n` free slots. */
  ghost predicate NoneInDir(g: Geometry, disk: Disk, c: seq<nat>, p: nat, n: nat)
    requires InRange(g, c) && p <= |c|
  {
    forall q: nat :: q < p ==> NoneInCluster(g, disk, c[q], g.spc, n)
  }

  /** The first run is in sector `s` of cluster `p` of the directory, at slot `i`. */
  ghost predicate FirstRun(g: Geometry, disk: Disk, c: seq<nat>, n: nat, p: nat, s: nat, i: nat)
    requires InRange(g, c)
  {
    p < |c| && s < g.spc && NoneInDir(g, disk, c, p, n) && FirstInCluster(g, disk, c[p], n, s, i)
  }

  ghost predicate FirstInCluster(g: Geometry, disk: Disk, cluster: nat, n: nat, s: nat, i: nat)
    requires cluster >= 2
  {
    NoneInCluster(g, disk, cluster, s, n) && FirstIn(Sector(disk, Base(g, cluster) + s), n, i)
  }

  method RunInCluster(v: Volume, cluster: nat, n: nat) returns (ok: bool, r: Option<nat>, ghost s: nat)
    requires Good(v.g) && 2 <= cluster < v.g.fatSize * 128 && n > 0
    ensures ok && r.Some? ==> s < v.g.spc && r.value % 32 == 0 && FirstInCluster(v.g, v.disk, cluster, n, s, r.value / 32)
    ensures ok && r.None? ==> NoneInCluster(v.g, v.disk, cluster, v.g.spc, n)
  {
    SectorExact(v.g, cluster);
    var start, spc, k: nat := ToSector(v.g, cluster), v.g.spc, 0;
    ok, r, s := true, None, 0;
    while k < spc && ok && r.None?
      invariant k <= spc
      invariant ok && r.None? ==> NoneInCluster(v.g, v.disk, cluster, k, n)
      invariant ok && r.Some? ==> s < spc && r.value % 32 == 0 && FirstInCluster(v.g, v.disk, cluster, n, s, r.value / 32)
      decreases spc - k
    {
      var sector := v.ReadSector(start + k);
      if sector.Ok? {
        r := RunInSector(sector.value, n);
        s := k;
        assert r.None? ==> NoneInSector(v.g, v.disk, cluster, k, n);
      } else {
        ok := false;
      }
      k := k + 1;
    }
  }

  /** `find_free_run`: the first run, or that there is none in the whole directory. The
      place it reports leaves out the sector's number in the cluster: the run is free in
      sector `s`, not always in the first one. */
  method FindFreeRun(v: Volume, ghost c: seq<nat>, parent: nat, n: nat) returns (r: Result<Option<(nat, nat)>, FatError>, ghost p: nat, ghost s: nat)
    requires Good(v.g) && |v.fat| == v.g.fatSize * 128 && InRange(v.g, c) && IsChain(v.fat, c) && c[0] == parent && n > 0
    ensures r.Ok? && r.value.Some? ==>
              && FirstRun(v.g, v.disk, c, n, p, s, r.value.value.1 / 32) && p <= CHAIN_GUARD
              && r.value.value.0 == c[p] && r.value.value.1 % 32 == 0
    ensures r == Ok(None) ==> NoneInDir(v.g, v.disk, c, |c|, n) && |c| <= CHAIN_GUARD + 1
    ensures r.Err? ==> r.error == Io || (r.error == Corrupt && |c| > CHAIN_GUARD + 1)
  {
    var current, guard: nat, more, ok := parent, 0, true, true;
    var found: Option<nat> := None;
    s := 0;
    while more
      invariant guard < |c| && guard <= CHAIN_GUARD + 1 && current == c[guard] && (!ok ==> !more) && (found.Some? ==> !more)
      invariant more ==> guard <= CHAIN_GUARD && NoneInDir(v.g, v.disk, c, guard, n)
      invariant ok && found.Some? ==> FirstRun(v.g, v.disk, c, n, guard, s, found.value / 32) && guard <= CHAIN_GUARD && found.value % 32 == 0
      invariant !more && ok && found.None? && guard <= CHAIN_GUARD ==> NoneInDir(v.g, v.disk, c, |c|, n) && |c| <= CHAIN_GUARD + 1
      decreases more, CHAIN_GUARD + 1 - guard
    {
      ok, found, s := RunInCluster(v, current, n);
      var after := guard + 1;
      var next := NextOn(v, c, guard, current);
      if ok && found.None? {
        NoneStep(v.g, v.disk, c, guard, after, n);
      }
      if !ok || found.Some? || next >= EOF_MARK {
        more := false;
      } else {
        current, guard := next, after;
        more := guard <= CHAIN_GUARD;
      }
    }
    p := guard;
    r := if !ok then Err(Io) else if found.Some? then Ok(Some((current, found.value))) else if guard > CHAIN_GUARD then Err(Corrupt) else Ok(None);
  }

  lemma NoneStep(g: Geometry, disk: Disk, c: seq<nat>, k: nat, k2: nat, n: nat)
    requires InRange(g, c) && k2 == k + 1 <= |c| && NoneInDir(g, disk, c, k, n) && NoneInCluster(g, disk, c[k], g.spc, n)
    ensures NoneInDir(g, disk, c, k2, n)
  {
  }

  method NextOn(v: Volume, ghost c: seq<nat>, ghost k: nat, cluster: nat) returns (next: nat)
    requires |v.fat| <= EOF_MARK && IsChain(v.fat, c) && k < |c| && cluster == c[k]
    ensures if k + 1 < |c| then next == c[k + 1] < EOF_MARK else next == EOF_MARK
  {
    ChainAt(v.fat, c, k);
    if k + 1 < |c| {
      ChainAt(v.fat, c, k + 1);
    }
    next := Next(v.fat, cluster);
  }

  // ---- writing the slots ---------------------------------------------------------------------------------

  /** Puts the slots into the first sector of cluster `p`. */
  method PutEntries(v: Volume, ghost c: seq<nat>, ghost p: nat, cluster: nat, at: nat, entries: seq<seq<Byte>>) returns (ok: bool)
    requires v.Valid() && c in v.chains && InRange(v.g, c) && p < |c| && c[p] == cluster && Whole(entries)
    requires at % 32 == 0 && at + 32 * |entries| <= 512 && at < 512
    modifies v`disk
    ensures v.Valid() && SameBut(old(v.disk), v.disk, Lbas(v.g, c))
    ensures ok ==> PlacedIn(v.g, old(v.disk), v.disk, c, p, at / 32, entries)
  {
    SectorExact(v.g, cluster);
    var lba := ToSector(v.g, cluster) + at / 512;
    ghost var disk0 := v.disk;
    ok := RewriteSector(v, lba, at, entries);
    OneSector(v.g, disk0, v.disk, v.fat, v.dirty, v.free, v.chains, c, cluster, 0, lba);
  }

  method RewriteSector(v: Volume, lba: nat, at: nat, entries: seq<seq<Byte>>) returns (ok: bool)
    requires Whole(entries) && at % 32 == 0 && at + 32 * |entries| <= 512
    modifies v`disk
    ensures DiffersAt(old(v.disk), v.disk, lba)
    ensures ok ==> Sector(v.disk, lba) == Overlay(Sector(old(v.disk), lba), at / 32, entries)
  {
    ok := false;
    var sector := v.ReadSector(lba);
    if sector.Ok? {
      var after := OverlaySector(sector.value, at, entries);
      ok := v.WriteSector(lba, after);
    }
  }

  /** A fresh cluster of zeros, and nothing else, was written. */
  ghost predicate NewCluster(g: Geometry, disk: Disk, grown: Disk, x: nat) {
    && 2 <= x < g.fatSize * 128 && SameBut(disk, grown, From(Base(g, x), g.spc))
    && forall y :: y in From(Base(g, x), g.spc) ==> Sector(grown, y) == ZeroSector()
  }

  /** The slots stand at slot `i` of the first sector of cluster `p`: where the first free
      run was found, if that was in sector `s == 0`; or, when the directory has no run in any
      sector, in the new last cluster. */
  ghost predicate EntryPut(g: Geometry, disk: Disk, grown: Disk, disk2: Disk, c: seq<nat>, c2: seq<nat>, p: nat, s: nat, i: nat, entries: seq<seq<Byte>>)
    requires InRange(g, c)
  {
    && PlacedIn(g, grown, disk2, c2, p, i, entries)
    && if c2 == c then grown == disk && FirstRun(g, disk, c, |entries|, p, s, i) && p <= CHAIN_GUARD
       else NoneInDir(g, disk, c, |c|, |entries|) && p == |c| && c2 == c + [c2[p]] && s == 0 && i == 0 && NewCluster(g, disk, grown, c2[p])
  }

  /** Writes the slots for `name` into the directory on `c`, which grows by a cluster when no
      run is free. Whatever the outcome, the volume stays sound and no sector of another
      chain changes. */
  method WriteDirEntries(v: Volume, ghost c: seq<nat>, parent: nat, name: seq<nat>, m: Meta)
    returns (r: Result<(), FatError>, ghost c2: seq<nat>, ghost grown: Disk, ghost p: nat, ghost s: nat, ghost i: nat)
    requires v.Valid() && c in v.chains && parent == c[0] && ValidName(name) && MetaOk(m)
    modifies v
    ensures v.Valid() && v.chains == old(v.chains) - {c} + {c2} && InRange(v.g, c2) && InRange(v.g, c)
    ensures c2 == c || (|c2| == |c| + 1 && c2[..|c|] == c)
    ensures forall x :: x in c2 ==> x in c || !InUse(old(v.chains), x)
    ensures SameBut(old(v.disk), v.disk, Lbas(v.g, c2))
    ensures r.Ok? ==> EntryPut(v.g, old(v.disk), grown, v.disk, c, c2, p, s, i, SlotsFor(name, m))
    ensures r.Err? ==> r.error == Io || r.error == OutOfSpace || r.error == Corrupt
  {
    NewInRange(v.g, v.disk, v.fat, v.dirty, v.free, v.chains, c);
    var entries := BuildEntries(name, m);
    SlotsLook(name, m);
    var place;
    place, p, s := FindFreeRun(v, c, parent, |entries|);
    c2, grown, i := c, v.disk, 0;
    if place.Err? {
      r := Err(place.error);
    } else if place.value.Some? {
      i := place.value.value.1 / 32;
      var ok := PutEntries(v, c, p, place.value.value.0, place.value.value.1, entries);
      r := if ok then Ok(()) else Err(Io);
    } else {
      p, s := |c|, 0;
      r, c2, grown := WriteInNew(v, c, parent, entries);
    }
  }

  /** The same when the directory is full. */
  method WriteInNew(v: Volume, ghost c: seq<nat>, parent: nat, entries: seq<seq<Byte>>)
    returns (r: Result<(), FatError>, ghost c2: seq<nat>, ghost grown: Disk)
    requires v.Valid() && c in v.chains && InRange(v.g, c) && parent == c[0] && Whole(entries) && |entries| <= 16
    requires |c| <= CHAIN_GUARD + 1
    modifies v
    ensures v.Valid() && v.chains == old(v.chains) - {c} + {c2} && InRange(v.g, c2) && (c2 == c || (|c2| == |c| + 1 && c2 == c + [c2[|c|]]))
    ensures forall x :: x in c2 ==> x in c || !InUse(old(v.chains), x)
    ensures SameBut(old(v.disk), v.disk, Lbas(v.g, c2))
    ensures r.Ok? ==> c2 != c && NewCluster(v.g, old(v.disk), grown, c2[|c|]) && PlacedIn(v.g, grown, v.disk, c2, |c|, 0, entries)
    ensures r.Err? ==> r.error == Io || r.error == OutOfSpace
  {
    ghost var disk0 := v.disk;
    var cluster, x := v.ExtendDir(c, parent);
    c2, grown := if cluster == Err(OutOfSpace) then c else c + [x], v.disk;
    assert cluster == Err(OutOfSpace) ==> old(v.chains) - {c} + {c} == old(v.chains);
    NewInRange(v.g, v.disk, v.fat, v.dirty, v.free, v.chains, c2);
    if cluster == Err(OutOfSpace) {
      r := Err(OutOfSpace);
    } else {
      GrownSame(v.g, disk0, grown, c, x);
      if cluster.Err? {
        r := Err(cluster.error);
      } else {
        var ok := PutEntries(v, c2, |c|, cluster.value, 0, entries);
        r := if ok then Ok(()) else Err(Io);
      }
    }
  }

  lemma GrownSame(g: Geometry, disk: Disk, disk2: Disk, c: seq<nat>, x: nat)
    requires InRange(g, c) && 2 <= x < g.fatSize * 128 && SameBut(disk, disk2, From(Base(g, x), g.spc))
    ensures InRange(g, c + [x]) && SameBut(disk, disk2, Lbas(g, c + [x]))
  {
    LbasOne(g, x);
    LbasConcat(g, c, [x]);
  }

  // ---- what that does to the listing ------------------------------------------------------------------------

  /** A directory whose sectors did not change. */
  lemma {:induction false} DirUntouched(g: Geometry, disk: Disk, disk2: Disk, c: seq<nat>)
    requires InRange(g, c) && forall x :: x in Lbas(g, c) ==> Sector(disk2, x) == Sector(disk, x)
    ensures DirSlots(g, disk2, c) == DirSlots(g, disk, c)
    decreases |c|
  {
    if c != [] {
      var base, mine := Base(g, c[0]), From(Base(g, c[0]), g.spc);
      forall x: nat | base <= x < base + g.spc ensures Sector(disk2, x) == Sector(disk, x) {
        assert mine[x - base] == x;
      }
      ClusterSame(g, disk, disk2, c[0], 0);
      DirUntouched(g, disk, disk2, c[1..]);
    }
  }

  lemma {:induction false} ZeroCluster(g: Geometry, disk: Disk, cluster: nat, s: nat)
    requires cluster >= 2 && forall x: nat :: Base(g, cluster) + s <= x < Base(g, cluster) + g.spc ==> Sector(disk, x) == ZeroSector()
    ensures FreeSlots(ClusterSlots(g, disk, cluster, s)) && (s < g.spc ==> HasEnd(ClusterSlots(g, disk, cluster, s)))
    decreases g.spc - s
  {
    if s < g.spc {
      ZeroCluster(g, disk, cluster, s + 1);
      var first, rest := SectorSlots(Sector(disk, Base(g, cluster) + s), cluster, s), ClusterSlots(g, disk, cluster, s + 1);
      var all: seq<Slot> := first + rest;
      assert all[0] == first[0] && first[0].bytes[0] == 0x00;
    }
  }

  /** A new cluster of zeros adds no entry. */
  lemma GrownListing(g: Geometry, disk: Disk, grown: Disk, c: seq<nat>, x: nat)
    requires Good(g) && InRange(g, c) && x !in c && NewCluster(g, disk, grown, x)
    ensures InRange(g, c + [x]) && Scanned(g, grown, c + [x]).out == Scanned(g, disk, c).out
  {
    LbasOne(g, x);
    LbasApart(g, [x], c);
    DirUntouched(g, disk, grown, c);
    var mine := From(Base(g, x), g.spc);
    forall y: nat | Base(g, x) <= y < Base(g, x) + g.spc ensures Sector(grown, y) == ZeroSector() {
      assert mine[y - Base(g, x)] == y;
    }
    ZeroCluster(g, grown, x, 0);
    DirSlotsConcat(g, grown, c, [x]);
    var one := [x];
    assert one[1..] == [] && DirSlots(g, grown, one) == ClusterSlots(g, grown, x, 0) + [];
    var slots := ClusterSlots(g, grown, x, 0);
    assert DirSlots(g, grown, one) == slots;
    RunConcat(START, DirSlots(g, grown, c), slots);
    var st := Run(START, DirSlots(g, grown, c));
    if st.ended {
      RunEnded(st, slots);
    } else {
      RunOverFree(st, slots);
    }
  }

  /** When the run was found in the first sector of its cluster the entry is inserted and
      nothing is lost. */
  lemma PutListing(g: Geometry, disk: Disk, grown: Disk, disk2: Disk, c: seq<nat>, c2: seq<nat>, p: nat, i: nat, name: seq<nat>, m: Meta, k: nat)
    returns (n: nat)
    requires Good(g) && InRange(g, c) && InRange(g, c2) && NoDup(c2) && ValidName(name) && MetaOk(m) && k == |SlotsFor(name, m)|
    requires EntryPut(g, disk, grown, disk2, c, c2, p, 0, i, SlotsFor(name, m))
    ensures WrittenAt(g, grown, disk2, c2, n, c2[p], 32 * i, SlotsFor(name, m))
    ensures IsInserted(DirSlots(g, grown, c2), n, k, Scanned(g, disk, c).out, Scanned(g, disk2, c2).out, name, m, c2[p], 32 * i)
    ensures Subset(Scanned(g, disk, c).out, Scanned(g, disk2, c2).out)
  {
    if c2 != c {
      NotAmong(c, c2, p);
      GrownListing(g, disk, grown, c, c2[p]);
      assert From(Base(g, c2[p]), g.spc)[0] == Base(g, c2[p]);
    }
    n := InsertedListing(g, grown, disk2, c2, p, i, name, m, k);
    InsertedKeeps(DirSlots(g, grown, c2), n, k, Scanned(g, disk, c).out, Scanned(g, disk2, c2).out, name, m, c2[p], 32 * i);
  }

  lemma NotAmong(c: seq<nat>, c2: seq<nat>, p: nat)
    requires NoDup(c2) && p == |c| < |c2| && c2 == c + [c2[p]]
    ensures c2[p] !in c
  {
    forall q | 0 <= q < |c| ensures c[q] != c2[p] {
      assert c2[q] == c[q];
    }
  }

  /** With one sector a cluster it always was. */
  lemma OneSectorEach(g: Geometry, disk: Disk, grown: Disk, disk2: Disk, c: seq<nat>, c2: seq<nat>, p: nat, s: nat, i: nat, entries: seq<seq<Byte>>)
    requires InRange(g, c) && EntryPut(g, disk, grown, disk2, c, c2, p, s, i, entries) && g.spc == 1
    ensures s == 0
  {
  }

  /** In a directory within the loop guard the listing is everything the scan finds. */
  lemma ListingIsScanned(g: Geometry, disk: Disk, c: seq<nat>)
    requires InRange(g, c) && |c| <= CHAIN_GUARD + 1
    ensures Listing(g, disk, c) == Ok(Scanned(g, disk, c).out)
  {
    assert c[..|c|] == c;
  }

  // ---- a directory in which an entry is lost ------------------------------------------------------------

  /** A sector full of entries named "A". */
  ghost predicate FullOfA(sector: seq<Byte>)
    requires |sector| == 512
  {
    forall b: nat :: b < 512 ==> sector[b] == if b % 32 == 0 then 0x41 else if b % 32 < 12 then 0x20 else 0
  }

  /** There is such a sector. */
  lemma FullSector() returns (sector: seq<Byte>)
    ensures |sector| == 512 && FullOfA(sector)
  {
    sector := seq(512, b requires 0 <= b < 512 => if b % 32 == 0 then 0x41 else if b % 32 < 12 then 0x20 else 0);
  }

  lemma FullNone(sector: seq<Byte>, n: nat)
    requires |sector| == 512 && FullOfA(sector) && n > 0
    ensures NoneIn(sector, n)
  {
    forall j: nat ensures !FreeAt(sector, j, n) {
      if j + n <= 16 {
        assert sector[32 * j] == 0x41;
      }
    }
  }

  lemma ZeroFirst(n: nat)
    requires 0 < n <= 16
    ensures FirstIn(ZeroSector(), n, 0)
  {
  }

  lemma FirstSlot(g: Geometry, disk: Disk, c: seq<nat>)
    requires InRange(g, c) && c != [] && g.spc > 0
    ensures var ss := DirSlots(g, disk, c);
            |ss| > 0 && ss[0] == Slot(Sector(disk, Base(g, c[0]))[..32], c[0], 0)
  {
    var sector := Sector(disk, Base(g, c[0]));
    var first := SectorSlots(Sector(disk, Base(g, c[0]) + 0), c[0], 0);
    assert first[0] == Slot(sector[32 * 0..32 * 0 + 32], c[0], 512 * 0 + 32 * 0);
    assert ClusterSlots(g, disk, c[0], 0)[0] == first[0];
  }

  lemma NamedA(b: seq<Byte>)
    requires |b| == 32 && b[0] == 0x41 && forall j :: 1 <= j < 11 ==> b[j] == 0x20
    ensures SfnName(b) == [0x41]
  {
    var name, ext := b[..8], b[8..11];
    assert ext[0] == 0x20 && UntilSpace(ext) == [];
    assert name[1..][0] == 0x20 && UntilSpace(name[1..]) == [];
    assert UntilSpace(name) == [name[0]] + UntilSpace(name[1..]);
  }

  /** The first slot yields its short name. */
  lemma {:induction false} FirstListed(ss: seq<Slot>, e: DirEntry)
    requires Slots(ss) && |ss| > 0 && Step(START, ss[0]).out == [e]
    ensures e in Run(START, ss).out
  {
    var next := Step(START, ss[0]);
    Grows(next, ss[1..]);
    assert next.out[0] == e && Run(next, ss[1..]).out[0] == e;
  }

  lemma StepA(s: Slot)
    requires |s.bytes| == 32 && SfnName(s.bytes) == [0x41] && s.bytes[0] == 0x41 && s.bytes[0x0B] == 0x20
    ensures Step(START, s).out == [EntryOf([0x41], s)]
  {
  }

  /** A long-name slot has no entry at its place. */
  lemma {:induction false} NotListed(ss: seq<Slot>, e: DirEntry)
    requires Slots(ss) && PlacesDiffer(ss) && |ss| > 0 && ss[0].bytes[0x0B] == 0x0F && e in Run(START, ss).out
    ensures !IsAt(e, ss[0])
  {
    assert ss[..0] == [];
    var k := EntryComesFrom(START, ss, e);
    assert k > 0 ==> !SamePlace(ss[0], ss[k]);
  }

  /** A directory of one cluster of two sectors, the first full and the second free. */
  ghost predicate HalfFull(g: Geometry, disk: Disk, cluster: nat) {
    && Good(g) && g.spc == 2 && 2 <= cluster < g.fatSize * 128
    && FullOfA(Sector(disk, Base(g, cluster))) && Sector(disk, Base(g, cluster) + 1) == ZeroSector()
  }

  lemma FoundSecond(g: Geometry, disk: Disk, cluster: nat, n: nat)
    requires HalfFull(g, disk, cluster) && 0 < n <= 16
    ensures FirstInCluster(g, disk, cluster, n, 1, 0)
  {
    FullNone(Sector(disk, Base(g, cluster)), n);
    ZeroFirst(n);
    assert Sector(disk, Base(g, cluster) + 0) == Sector(disk, Base(g, cluster));
    assert NoneInSector(g, disk, cluster, 0, n);
  }

  /** Entering any name into it loses an entry: the free run is found in the second sector,
      and the name's slots are put over the first one's. */
  lemma EntryLost(g: Geometry, disk: Disk, disk2: Disk, cluster: nat, name: seq<nat>, m: Meta) returns (e: DirEntry)
    requires HalfFull(g, disk, cluster) && ValidName(name) && InRange(g, [cluster])
    requires EntryPut(g, disk, disk, disk2, [cluster], [cluster], 0, 1, 0, SlotsFor(name, m))
    ensures FirstInCluster(g, disk, cluster, |SlotsFor(name, m)|, 1, 0)
    ensures e in Scanned(g, disk, [cluster]).out && e !in Scanned(g, disk2, [cluster]).out
  {
    SlotsLook(name, m);
    FoundSecond(g, disk, cluster, |SlotsFor(name, m)|);
    var c: seq<nat> := [cluster];
    FirstSlot(g, disk, c);
    FirstSlot(g, disk2, c);
    e := FirstGone(DirSlots(g, disk, c), DirSlots(g, disk2, c), Sector(disk, Base(g, cluster)), cluster, name, m);
    DirDiffers(g, disk2, c);
    if e in Scanned(g, disk2, c).out {
      NotListed(DirSlots(g, disk2, c), e);
    }
  }

  lemma FirstGone(ss: seq<Slot>, ss2: seq<Slot>, sector: seq<Byte>, cluster: nat, name: seq<nat>, m: Meta) returns (e: DirEntry)
    requires ValidName(name) && Whole(SlotsFor(name, m)) && |sector| == 512 && FullOfA(sector)
    requires Slots(ss) && |ss| > 0 && ss[0] == Slot(sector[..32], cluster, 0)
    requires Slots(ss2) && |ss2| > 0 && ss2[0] == Slot(Overlay(sector, 0, SlotsFor(name, m))[..32], cluster, 0)
    ensures e in Run(START, ss).out && IsAt(e, ss2[0]) && ss2[0].bytes[0x0B] == 0x0F
  {
    SlotsLook(name, m);
    OverlaySlot(sector, 0, SlotsFor(name, m), 0);
    assert ss2[0].bytes == SlotsFor(name, m)[0];
    FirstIsA(ss[0], sector);
    e := EntryOf([0x41], ss[0]);
    FirstListed(ss, e);
  }

  lemma FirstIsA(s: Slot, sector: seq<Byte>)
    requires |sector| == 512 && FullOfA(sector) && s.bytes == sector[..32]
    ensures Step(START, s).out == [EntryOf([0x41], s)]
  {
    assert forall b: nat :: b < 32 ==> s.bytes[b] == sector[b];
    NamedA(s.bytes);
    StepA(s);
  }

  /** This can happen on every volume with two sectors a cluster, with every name. */
  lemma LossPossible(g: Geometry, cluster: nat, name: seq<nat>, m: Meta) returns (disk: Disk, disk2: Disk, e: DirEntry)
    requires Good(g) && g.spc == 2 && 2 <= cluster < g.fatSize * 128 && ValidName(name)
    ensures InRange(g, [cluster]) && EntryPut(g, disk, disk, disk2, [cluster], [cluster], 0, 1, 0, SlotsFor(name, m))
    ensures e in Scanned(g, disk, [cluster]).out && e !in Scanned(g, disk2, [cluster]).out
  {
    var sector := FullSector();
    var lba := Base(g, cluster);
    SlotsLook(name, m);
    disk, disk2 := map[lba := sector], map[lba := Overlay(sector, 0, SlotsFor(name, m))];
    assert Sector(disk, lba) == sector && Sector(disk, lba + 1) == ZeroSector();
    FoundSecond(g, disk, cluster, |SlotsFor(name, m)|);
    e := EntryLost(g, disk, disk2, cluster, name, m);
  }

  // ---- a directory in which the new entry is not listed -------------------------------------------------

  /** At an end mark the scan ends. */
  lemma {:induction false} EndsAt(st: Scan, ss: seq<Slot>, k: nat)
    requires Slots(ss) && k < |ss| && ss[k].bytes[0] == 0x00
    ensures Run(st, ss).ended
    decreases |ss|
  {
    var next := Step(st, ss[0]);
    if k == 0 || next.ended {
      RunEnded(next, ss[1..]);
    } else {
      EndsAt(next, ss[1..], k - 1);
    }
  }

  lemma PlacedUntouched(g: Geometry, grown: Disk, disk2: Disk, c: seq<nat>, c2: seq<nat>, p: nat, i: nat, entries: seq<seq<Byte>>)
    requires Good(g) && InRange(g, c) && InRange(g, c2) && PlacedIn(g, grown, disk2, c2, p, i, entries) && c2[p] !in c
    ensures DirSlots(g, disk2, c) == DirSlots(g, grown, c)
  {
    var one := [c2[p]];
    LbasOne(g, c2[p]);
    assert From(Base(g, c2[p]), g.spc)[0] == Base(g, c2[p]);
    LbasApart(g, one, c);
    forall y | y in Lbas(g, c) ensures Sector(disk2, y) == Sector(grown, y) {
      LbasBehind(g, c, y);
    }
    DirUntouched(g, grown, disk2, c);
  }

  /** A directory that grows although its scan meets an end mark lists what it listed before: the
      new entry stands behind the mark. */
  lemma GrownHides(g: Geometry, disk: Disk, grown: Disk, disk2: Disk, c: seq<nat>, c2: seq<nat>, p: nat, i: nat, entries: seq<seq<Byte>>)
    requires Good(g) && InRange(g, c) && InRange(g, c2) && NoDup(c2) && c2 != c && Scanned(g, disk, c).ended
    requires EntryPut(g, disk, grown, disk2, c, c2, p, 0, i, entries)
    ensures Scanned(g, disk2, c2) == Scanned(g, disk, c)
  {
    var x := c2[p];
    NotAmong(c, c2, p);
    LbasOne(g, x);
    LbasApart(g, [x], c);
    DirUntouched(g, disk, grown, c);
    PlacedUntouched(g, grown, disk2, c, c2, p, i, entries);
    DirSlotsConcat(g, disk2, c, [x]);
    RunConcat(START, DirSlots(g, disk2, c), DirSlots(g, disk2, [x]));
    RunEnded(Scanned(g, disk, c), DirSlots(g, disk2, [x]));
  }

  /** Fifteen entries, and an end mark in the last slot. */
  ghost predicate AlmostFull(sector: seq<Byte>)
    requires |sector| == 512
  {
    sector[32 * 15] == 0x00 && forall k: nat :: k < 15 ==> sector[32 * k] == 0x41
  }

  lemma AlmostNone(sector: seq<Byte>, n: nat)
    requires |sector| == 512 && AlmostFull(sector) && n >= 2
    ensures NoneIn(sector, n)
  {
    forall j: nat ensures !FreeAt(sector, j, n) {
      if j + n <= 16 {
        assert sector[32 * j] == 0x41;
      }
    }
  }

  /** With one sector a cluster, a directory of one such sector has no room for a name, and its
      scan ends there. */
  lemma AlmostFullDir(g: Geometry, disk: Disk, x: nat, n: nat)
    requires Good(g) && g.spc == 1 && 2 <= x < g.fatSize * 128 && InRange(g, [x]) && AlmostFull(Sector(disk, Base(g, x))) && n >= 2
    ensures NoneInDir(g, disk, [x], 1, n) && Scanned(g, disk, [x]).ended
  {
    var c, sector := [x], Sector(disk, Base(g, x));
    AlmostNone(sector, n);
    assert Sector(disk, Base(g, x) + 0) == sector && NoneInSector(g, disk, x, 0, n);
    var first := SectorSlots(Sector(disk, Base(g, x) + 0), x, 0);
    assert ClusterSlots(g, disk, x, 1) == [] && ClusterSlots(g, disk, x, 0) == first + [];
    assert c[1..] == [] && DirSlots(g, disk, c) == first + [] + [];
    assert first[15].bytes[0] == sector[32 * 15];
    EndsAt(START, DirSlots(g, disk, c), 15);
  }

  /** This can happen on every volume with one sector a cluster, with every name: it is put where
      the code puts it, and no scan finds it. */
  lemma HiddenPossible(g: Geometry, x: nat, y: nat, name: seq<nat>, m: Meta) returns (disk: Disk, disk2: Disk)
    requires Good(g) && g.spc == 1 && 2 <= x < g.fatSize * 128 && 2 <= y < g.fatSize * 128 && x != y && ValidName(name)
    ensures InRange(g, [x]) && InRange(g, [x, y]) && EntryPut(g, disk, disk, disk2, [x], [x, y], 1, 0, 0, SlotsFor(name, m))
    ensures Scanned(g, disk2, [x, y]) == Scanned(g, disk, [x])
  {
    SlotsLook(name, m);
    var sector, entries := AlmostFullSector(), SlotsFor(name, m);
    SectorsDiffer(g, x, y);
    disk, disk2 := TwoDisks(Base(g, x), Base(g, y), sector, Overlay(ZeroSector(), 0, entries));
    AlmostFullDir(g, disk, x, |entries|);
    PutInNew(g, disk, disk2, x, y, entries);
    HiddenIn(g, disk, disk2, x, y, entries);
  }

  lemma HiddenIn(g: Geometry, disk: Disk, disk2: Disk, x: nat, y: nat, entries: seq<seq<Byte>>)
    requires Good(g) && InRange(g, [x]) && InRange(g, [x, y]) && x != y && Scanned(g, disk, [x]).ended
    requires EntryPut(g, disk, disk, disk2, [x], [x, y], 1, 0, 0, entries)
    ensures Scanned(g, disk2, [x, y]) == Scanned(g, disk, [x])
  {
    GrownHides(g, disk, disk, disk2, [x], [x, y], 1, 0, entries);
  }

  /** A disk with one sector, and one with a second. */
  lemma TwoDisks(a: nat, b: nat, sector: seq<Byte>, put: seq<Byte>) returns (disk: Disk, disk2: Disk)
    requires a != b && |sector| == 512 && |put| == 512
    ensures Sector(disk, a) == sector && Sector(disk, b) == ZeroSector() && Sector(disk2, b) == put
    ensures forall z: nat :: z != b ==> Sector(disk2, z) == Sector(disk, z)
  {
    disk, disk2 := map[a := sector], map[a := sector, b := put];
  }

  ghost function AlmostFullSector(): (r: seq<Byte>)
    ensures |r| == 512 && AlmostFull(r)
  {
    seq(512, b requires 0 <= b < 512 => if b % 32 == 0 && b < 480 then 0x41 else 0)
  }

  lemma PutInNew(g: Geometry, disk: Disk, disk2: Disk, x: nat, y: nat, entries: seq<seq<Byte>>)
    requires Good(g) && g.spc == 1 && 2 <= x < g.fatSize * 128 && 2 <= y < g.fatSize * 128 && x != y && Whole(entries) && 0 < |entries| <= 16
    requires InRange(g, [x]) && NoneInDir(g, disk, [x], 1, |entries|) && Sector(disk, Base(g, y)) == ZeroSector()
    requires Sector(disk2, Base(g, y)) == Overlay(ZeroSector(), 0, entries) && forall z: nat :: z != Base(g, y) ==> Sector(disk2, z) == Sector(disk, z)
    ensures EntryPut(g, disk, disk, disk2, [x], [x, y], 1, 0, 0, entries)
  {
    var lba := Base(g, y);
    assert From(lba, 1) == [lba];
    assert NewCluster(g, disk, disk, y);
    assert PlacedIn(g, disk, disk2, [x, y], 1, 0, entries);
  }

  lemma SectorsDiffer(g: Geometry, x: nat, y: nat)
    requires Good(g) && g.spc == 1 && x >= 2 && y >= 2 && x != y
    ensures Base(g, x) != Base(g, y) && Base(g, x) >= g.firstData && Base(g, y) >= g.firstData
  {
  }
}
