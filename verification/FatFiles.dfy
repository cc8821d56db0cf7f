/** Reading a directory of a mounted volume and deleting an entry of it
    (src/fat.rs:155-226, 351-371). */
module FatFiles {
  import opened Wrappers
  import opened Bytes
  import opened Fat
  import opened FatVolume
  import opened Directory
  import opened LongName
  import opened Insertion

  // ---- the slots of a directory -----------------------------------------------------

  ghost function SectorSlots(sector: seq<Byte>, cluster: nat, s: nat): (r: seq<Slot>)
    requires |sector| == 512
    ensures |r| == 16 && Slots(r)
  {
    seq(16, i requires 0 <= i < 16 => Slot(sector[32 * i..32 * i + 32], cluster, 512 * s + 32 * i))
  }

  /** The slots of a cluster from its sector `s` on. */
  ghost function ClusterSlots(g: Geometry, disk: Disk, cluster: nat, s: nat): (r: seq<Slot>)
    requires cluster >= 2
    ensures Slots(r)
    decreases g.spc - s
  {
    if s >= g.spc then []
    else SectorSlots(Sector(disk, Base(g, cluster) + s), cluster, s) + ClusterSlots(g, disk, cluster, s + 1)
  }

  ghost function DirSlots(g: Geometry, disk: Disk, c: seq<nat>): (r: seq<Slot>)
    requires InRange(g, c)
    ensures Slots(r)
    decreases |c|
  {
    if c == [] then [] else ClusterSlots(g, disk, c[0], 0) + DirSlots(g, disk, c[1..])
  }

  /** Everything the scanner finds in the directory on chain `c`. */
  ghost function Scanned(g: Geometry, disk: Disk, c: seq<nat>): Scan
    requires InRange(g, c)
  {
    Run(START, DirSlots(g, disk, c))
  }

  /** What `read_dir` returns: the loop guard lets it visit CHAIN_GUARD + 1 clusters. */
  ghost function Listing(g: Geometry, disk: Disk, c: seq<nat>): Result<seq<DirEntry>, FatError>
    requires InRange(g, c)
  {
    var seen := Scanned(g, disk, c[..Min(|c|, CHAIN_GUARD + 1)]);
    if |c| > CHAIN_GUARD + 1 && !seen.ended then Err(Corrupt) else Ok(seen.out)
  }

  // ---- reading a directory -----------------------------------------------------------

  /** One slot, as the body of the scanning loop handles it. */
  method ScanSlot(st: Scan, s: Slot) returns (r: Scan)
    requires |s.bytes| == 32 && !st.ended
    ensures r == Step(st, s)
  {
    if s.bytes[0] == 0x00 {
      r := st.(ended := true);
    } else if s.bytes[0] == 0xE5 {
      r := st.(parts := []);
    } else if s.bytes[0x0B] == 0x0F {
      r := st.(parts := [PartOf(s.bytes)] + st.parts);
    } else {
      var name := SfnName(s.bytes);
      if st.parts != [] {
        name := AssembleLfn(st.parts);
      }
      r := st.(parts := []);
      if name != [] && name != DOT && name != DOTDOT {
        r := r.(out := r.out + [EntryOf(name, s)]);
      }
    }
  }

  lemma RunHead(st: Scan, slots: seq<Slot>, i: nat, i2: nat)
    requires Slots(slots) && i < |slots| && i2 == i + 1
    ensures Run(st, slots[i..]) == Run(Step(st, slots[i]), slots[i2..])
  {
    assert slots[i..][1..] == slots[i2..];
  }

  method ScanSector(st: Scan, sector: seq<Byte>, cluster: nat, s: nat) returns (r: Scan)
    requires |sector| == 512 && !st.ended
    ensures r == Run(st, SectorSlots(sector, cluster, s))
  {
    ghost var slots := SectorSlots(sector, cluster, s);
    r := st;
    var i: nat := 0;
    assert slots[0..] == slots;
    while i < 16 && !r.ended
      invariant i <= 16 && Run(r, slots[i..]) == Run(st, slots)
    {
      ghost var i2 := i + 1;
      var slot := Slot(sector[32 * i..32 * i + 32], cluster, 512 * s + 32 * i);
      assert slots[i] == slot;
      RunHead(r, slots, i, i2);
      r := ScanSlot(r, slot);
      i := i + 1;
    }
    if r.ended {
      RunEnded(r, slots[i..]);
    }
  }

  /** Scanning the cluster from sector `s` on in state `st` gives `goal`. */
  ghost predicate ScanAt(g: Geometry, disk: Disk, cluster: nat, s: nat, st: Scan, goal: Scan)
    requires cluster >= 2
  {
    Run(st, ClusterSlots(g, disk, cluster, s)) == goal
  }

  lemma ScanAtStep(g: Geometry, disk: Disk, cluster: nat, s: nat, s2: nat, sector: seq<Byte>, st: Scan, goal: Scan)
    requires cluster >= 2 && s < g.spc && s2 == s + 1 && sector == Sector(disk, Base(g, cluster) + s)
    requires ScanAt(g, disk, cluster, s, st, goal)
    ensures ScanAt(g, disk, cluster, s2, Run(st, SectorSlots(sector, cluster, s)), goal)
  {
    RunConcat(st, SectorSlots(sector, cluster, s), ClusterSlots(g, disk, cluster, s2));
  }

  lemma ScanAtEnd(g: Geometry, disk: Disk, cluster: nat, s: nat, st: Scan, goal: Scan)
    requires cluster >= 2 && ScanAt(g, disk, cluster, s, st, goal) && (s >= g.spc || st.ended)
    ensures st == goal
  {
    if st.ended {
      RunEnded(st, ClusterSlots(g, disk, cluster, s));
    }
  }

  /** One cluster of the directory. */
  method ScanCluster(v: Volume, st: Scan, cluster: nat) returns (ok: bool, r: Scan)
    requires Good(v.g) && 2 <= cluster < v.g.fatSize * 128 && !st.ended
    ensures ok ==> r == Run(st, ClusterSlots(v.g, v.disk, cluster, 0))
  {
    SectorExact(v.g, cluster);
    ok, r := ScanSectors(v, st, cluster, ToSector(v.g, cluster));
  }

  method ScanOne(v: Volume, st: Scan, cluster: nat, s: nat, lba: nat, ghost goal: Scan) returns (ok: bool, r: Scan)
    requires !st.ended && cluster >= 2 && s < v.g.spc && lba == Base(v.g, cluster) + s && ScanAt(v.g, v.disk, cluster, s, st, goal)
    ensures ok ==> ScanAt(v.g, v.disk, cluster, s + 1, r, goal)
  {
    ScanAtStep(v.g, v.disk, cluster, s, s + 1, Sector(v.disk, lba), st, goal);
    var sector := v.ReadSector(lba);
    ok, r := sector.Ok?, st;
    if ok {
      r := ScanSector(st, sector.value, cluster, s);
    }
  }

  method ScanSectors(v: Volume, st: Scan, cluster: nat, start: nat) returns (ok: bool, r: Scan)
    requires cluster >= 2 && start == Base(v.g, cluster) && !st.ended
    ensures ok ==> r == Run(st, ClusterSlots(v.g, v.disk, cluster, 0))
  {
    var spc := v.g.spc;
    ghost var goal := Run(st, ClusterSlots(v.g, v.disk, cluster, 0));
    var s: nat := 0;
    ok, r := true, st;
    while s < spc && ok && !r.ended
      invariant s <= spc && (ok ==> ScanAt(v.g, v.disk, cluster, s, r, goal))
      decreases spc - s
    {
      ok, r := ScanOne(v, r, cluster, s, start + s, goal);
      s := s + 1;
    }
    if ok {
      ScanAtEnd(v.g, v.disk, cluster, s, r, goal);
    }
  }

  lemma {:induction false} DirSlotsConcat(g: Geometry, disk: Disk, c: seq<nat>, d: seq<nat>)
    requires InRange(g, c) && InRange(g, d)
    ensures InRange(g, c + d) && DirSlots(g, disk, c + d) == DirSlots(g, disk, c) + DirSlots(g, disk, d)
    decreases |c|
  {
    if c == [] {
      assert c + d == d;
    } else {
      var first, rest, last := ClusterSlots(g, disk, c[0], 0), DirSlots(g, disk, c[1..]), DirSlots(g, disk, d);
      DirSlotsConcat(g, disk, c[1..], d);
      assert (c + d)[1..] == c[1..] + d && (c + d)[0] == c[0];
      SlotsAssoc(first, rest, last);
    }
  }

  lemma SlotsAssoc(a: seq<Slot>, b: seq<Slot>, c: seq<Slot>)
    ensures a + b + c == a + (b + c)
  {
  }

  lemma ScannedNext(g: Geometry, disk: Disk, c: seq<nat>, k: nat, k2: nat)
    requires InRange(g, c) && k < |c| && k2 == k + 1
    ensures Scanned(g, disk, c[..k2]) == Run(Scanned(g, disk, c[..k]), ClusterSlots(g, disk, c[k], 0))
  {
    var one := [c[k]];
    assert c[..k2] == c[..k] + one;
    DirSlotsConcat(g, disk, c[..k], one);
    assert one[1..] == [] && DirSlots(g, disk, one) == ClusterSlots(g, disk, c[k], 0) + [];
    assert DirSlots(g, disk, one) == ClusterSlots(g, disk, c[k], 0);
    RunConcat(START, DirSlots(g, disk, c[..k]), DirSlots(g, disk, one));
  }

  /** Once ended, further clusters add nothing. */
  lemma ScannedEnded(g: Geometry, disk: Disk, c: seq<nat>, k: nat, n: nat)
    requires InRange(g, c) && k <= n <= |c| && Scanned(g, disk, c[..k]).ended
    ensures Scanned(g, disk, c[..n]) == Scanned(g, disk, c[..k])
  {
    assert c[..n] == c[..k] + c[k..n];
    DirSlotsConcat(g, disk, c[..k], c[k..n]);
    RunConcat(START, DirSlots(g, disk, c[..k]), DirSlots(g, disk, c[k..n]));
    RunEnded(Scanned(g, disk, c[..k]), DirSlots(g, disk, c[k..n]));
  }

  /** `read_dir` on the chain `c` that starts at `first`. */
  method ReadDir(v: Volume, ghost c: seq<nat>, first: nat) returns (r: Result<seq<DirEntry>, FatError>)
    requires Good(v.g) && |v.fat| == v.g.fatSize * 128 && InRange(v.g, c) && IsChain(v.fat, c) && c[0] == first
    ensures r == Listing(v.g, v.disk, c) || r == Err(Io)
  {
    var cluster, guard: nat, st := first, 0, START;
    var ok, more := true, true;
    assert c[..0] == [];
    while more
      invariant guard <= |c| && guard <= CHAIN_GUARD + 1
      invariant ok ==> st == Scanned(v.g, v.disk, c[..guard])
      invariant more ==> ok && !st.ended && guard < |c| && guard <= CHAIN_GUARD && cluster == c[guard]
      invariant !more && ok ==> st.ended || (guard == Min(|c|, CHAIN_GUARD + 1) && (cluster < EOF_MARK <==> guard < |c|))
      decreases more, CHAIN_GUARD + 1 - guard
    {
      ghost var k2 := guard + 1;
      ScannedNext(v.g, v.disk, c, guard, k2);
      ChainAt(v.fat, c, guard);
      if k2 < |c| {
        ChainAt(v.fat, c, k2);
      }
      ok, st := ScanCluster(v, st, cluster);
      cluster := Next(v.fat, cluster);
      guard := guard + 1;
      more := ok && !st.ended && cluster < EOF_MARK && guard <= CHAIN_GUARD;
    }
    if ok && st.ended {
      ScannedEnded(v.g, v.disk, c, guard, Min(|c|, CHAIN_GUARD + 1));
    }
    r := if !ok then Err(Io) else if st.ended || cluster >= EOF_MARK then Ok(st.out) else Err(Corrupt);
  }

  // ---- deleting an entry ---------------------------------------------------------------

  /** Slot `t` lies outside sector `s` of `cluster`. */
  ghost predicate Elsewhere(t: Slot, cluster: nat, s: nat) {
    t.cluster != cluster || t.offset < 512 * s || t.offset >= 512 * s + 512
  }

  ghost predicate AllElsewhere(ss: seq<Slot>, cluster: nat, s: nat) { Slots(ss) && forall i :: 0 <= i < |ss| ==> Elsewhere(ss[i], cluster, s) }

  ghost predicate DiffersAt(disk: Disk, disk2: Disk, lba: nat) { forall x: nat :: x != lba ==> Sector(disk2, x) == Sector(disk, x) }

  lemma {:induction false} ClusterSame(g: Geometry, disk: Disk, disk2: Disk, cluster: nat, s: nat)
    requires cluster >= 2 && forall x: nat :: Base(g, cluster) + s <= x < Base(g, cluster) + g.spc ==> Sector(disk2, x) == Sector(disk, x)
    ensures ClusterSlots(g, disk2, cluster, s) == ClusterSlots(g, disk, cluster, s)
    decreases g.spc - s
  {
    if s < g.spc {
      ClusterSame(g, disk, disk2, cluster, s + 1);
    }
  }

  lemma {:induction false} ClusterPlaces(g: Geometry, disk: Disk, cluster: nat, s: nat)
    requires cluster >= 2
    ensures forall i :: 0 <= i < |ClusterSlots(g, disk, cluster, s)| ==>
              ClusterSlots(g, disk, cluster, s)[i].cluster == cluster && ClusterSlots(g, disk, cluster, s)[i].offset >= 512 * s
    decreases g.spc - s
  {
    if s < g.spc {
      ClusterPlaces(g, disk, cluster, s + 1);
    }
  }

  lemma PutBefore(f: seq<Slot>, a: seq<Slot>, x: seq<Slot>, b: seq<Slot>)
    ensures f + a + x + b == f + (a + x + b)
  {
  }

  lemma PutAfter(a: seq<Slot>, x: seq<Slot>, b: seq<Slot>, f: seq<Slot>)
    ensures a + x + (b + f) == a + x + b + f
  {
  }

  lemma NoneBefore(x: seq<Slot>, b: seq<Slot>)
    ensures [] + x + b == x + b
  {
    assert [] + x == x;
  }

  lemma BothElsewhere(a: seq<Slot>, b: seq<Slot>, cluster: nat, s: nat)
    requires AllElsewhere(a, cluster, s) && AllElsewhere(b, cluster, s)
    ensures AllElsewhere(a + b, cluster, s)
  {
  }

  lemma SectorElsewhere(sector: seq<Byte>, cluster: nat, s0: nat, s: nat)
    requires |sector| == 512 && s0 < s
    ensures AllElsewhere(SectorSlots(sector, cluster, s0), cluster, s)
  {
  }

  lemma {:induction false} ClusterSplit(g: Geometry, disk: Disk, disk2: Disk, cluster: nat, s0: nat, s: nat, lba: nat) returns (a: seq<Slot>, b: seq<Slot>)
    requires cluster >= 2 && s0 <= s < g.spc && lba == Base(g, cluster) + s && DiffersAt(disk, disk2, lba)
    ensures AllElsewhere(a, cluster, s) && AllElsewhere(b, cluster, s)
    ensures ClusterSlots(g, disk, cluster, s0) == a + SectorSlots(Sector(disk, lba), cluster, s) + b
    ensures ClusterSlots(g, disk2, cluster, s0) == a + SectorSlots(Sector(disk2, lba), cluster, s) + b
    decreases s - s0
  {
    var x, x2 := SectorSlots(Sector(disk, lba), cluster, s), SectorSlots(Sector(disk2, lba), cluster, s);
    if s0 == s {
      a, b := [], ClusterSlots(g, disk, cluster, s + 1);
      ClusterSame(g, disk, disk2, cluster, s + 1);
      ClusterPlaces(g, disk, cluster, s + 1);
      NoneBefore(x, b);
      NoneBefore(x2, b);
    } else {
      var a1;
      a1, b := ClusterSplit(g, disk, disk2, cluster, s0 + 1, s, lba);
      var sector := Sector(disk, Base(g, cluster) + s0);
      assert Sector(disk2, Base(g, cluster) + s0) == sector;
      var first := SectorSlots(sector, cluster, s0);
      a := first + a1;
      SectorElsewhere(sector, cluster, s0, s);
      BothElsewhere(first, a1, cluster, s);
      PutBefore(first, a1, x, b);
      PutBefore(first, a1, x2, b);
    }
  }

  lemma {:induction false} DirSame(g: Geometry, disk: Disk, disk2: Disk, c: seq<nat>, cluster: nat, lba: nat)
    requires Good(g) && InRange(g, c) && 2 <= cluster < g.fatSize * 128 && cluster !in c && Holds(g, cluster, lba) && DiffersAt(disk, disk2, lba)
    ensures DirSlots(g, disk2, c) == DirSlots(g, disk, c)
    decreases |c|
  {
    if c != [] {
      HoldsOnce(g, cluster, c[0], lba);
      ClusterSame(g, disk, disk2, c[0], 0);
      DirSame(g, disk, disk2, c[1..], cluster, lba);
    }
  }

  lemma {:induction false} DirElsewhere(g: Geometry, disk: Disk, c: seq<nat>, cluster: nat, s: nat)
    requires InRange(g, c) && cluster !in c
    ensures AllElsewhere(DirSlots(g, disk, c), cluster, s)
    decreases |c|
  {
    if c != [] {
      ClusterPlaces(g, disk, c[0], 0);
      DirElsewhere(g, disk, c[1..], cluster, s);
    }
  }

  /** A directory around one of its sectors. */
  lemma {:induction false} DirSplit(g: Geometry, disk: Disk, disk2: Disk, c: seq<nat>, p: nat, s: nat, lba: nat) returns (a: seq<Slot>, b: seq<Slot>)
    requires Good(g) && InRange(g, c) && NoDup(c) && p < |c| && s < g.spc && lba == Base(g, c[p]) + s && DiffersAt(disk, disk2, lba)
    ensures AllElsewhere(a, c[p], s) && AllElsewhere(b, c[p], s)
    ensures DirSlots(g, disk, c) == a + SectorSlots(Sector(disk, lba), c[p], s) + b
    ensures DirSlots(g, disk2, c) == a + SectorSlots(Sector(disk2, lba), c[p], s) + b
    decreases |c|
  {
    var x, x2 := SectorSlots(Sector(disk, lba), c[p], s), SectorSlots(Sector(disk2, lba), c[p], s);
    if p == 0 {
      var b1;
      a, b1 := ClusterSplit(g, disk, disk2, c[0], 0, s, lba);
      var rest := DirSlots(g, disk, c[1..]);
      DirSame(g, disk, disk2, c[1..], c[0], lba);
      DirElsewhere(g, disk, c[1..], c[0], s);
      b := b1 + rest;
      BothElsewhere(b1, rest, c[0], s);
      PutAfter(a, x, b1, rest);
      PutAfter(a, x2, b1, rest);
    } else {
      var a1;
      a1, b := DirSplit(g, disk, disk2, c[1..], p - 1, s, lba);
      var first := ClusterSlots(g, disk, c[0], 0);
      HoldsOnce(g, c[p], c[0], lba);
      ClusterSame(g, disk, disk2, c[0], 0);
      ClusterPlaces(g, disk, c[0], 0);
      a := first + a1;
      BothElsewhere(first, a1, c[p], s);
      PutBefore(first, a1, x, b);
      PutBefore(first, a1, x2, b);
    }
  }

  /** The sector with the first bytes of slots lo..i set to 0xE5. */
  ghost function Marked(sector: seq<Byte>, lo: nat, i: nat): (r: seq<Byte>)
    requires |sector| == 512
  {
    seq(512, b requires 0 <= b < 512 => if b % 32 == 0 && lo <= b / 32 <= i then 0xE5 else sector[b])
  }

  /** Slots lo..i are long-name slots. */
  ghost predicate NamesBefore(sector: seq<Byte>, lo: nat, i: nat)
    requires |sector| == 512
  {
    lo <= i < 16 && forall j: nat :: lo <= j < i ==> sector[32 * j + 0x0B] == 0x0F
  }

  /** The loop of `delete_entry_at`: marks the slot and the long-name slots before it. */
  method EraseRun(sector: seq<Byte>, at: nat) returns (r: seq<Byte>, ghost lo: nat)
    requires |sector| == 512 && at < 512 && at % 32 == 0
    ensures NamesBefore(sector, lo, at / 32) && (lo > 0 ==> sector[32 * (lo - 1) + 0x0B] != 0x0F)
    ensures r == Marked(sector, lo, at / 32)
  {
    r := sector[at := 0xE5];
    var back: nat := at;
    ghost var i := at / 32;
    lo := i;
    while back >= 32 && r[back - 32 + 0x0B] == 0x0F
      invariant back == 32 * lo && NamesBefore(sector, lo, i) && r == Marked(sector, lo, i)
      decreases back
    {
      ghost var b2 := back - 32;
      assert r[b2 + 0x0B] == sector[b2 + 0x0B];
      r := r[back - 32 := 0xE5];
      back := back - 32;
      lo := lo - 1;
    }
    if back >= 32 {
      assert r[32 * (lo - 1) + 0x0B] == sector[32 * (lo - 1) + 0x0B];
    }
  }

  /** The slots of a sector before and after the marking. */
  lemma MarkedSlots(sector: seq<Byte>, lo: nat, i: nat, cluster: nat, s: nat)
    requires |sector| == 512 && NamesBefore(sector, lo, i)
    ensures var x, x2 := SectorSlots(sector, cluster, s), SectorSlots(Marked(sector, lo, i), cluster, s);
            && x2[..lo] == x[..lo] && x2[i] == Erased(x[i]) && x2[i + 1..] == x[i + 1..]
            && (forall j :: 0 <= j < i - lo ==> x[lo..i][j].bytes[0x0B] == 0x0F)
            && (forall j :: 0 <= j < i - lo ==> x2[lo..i][j].bytes[0] == 0xE5)
  {
    var x, x2 := SectorSlots(sector, cluster, s), SectorSlots(Marked(sector, lo, i), cluster, s);
    forall j: nat | j < 16 ensures x2[j] == if lo <= j <= i then Erased(x[j]) else x[j] {
      MarkedSlot(sector, lo, i, cluster, s, j);
    }
    forall j: nat | lo <= j < i ensures x[j].bytes[0x0B] == 0x0F {
      assert x[j].bytes[0x0B] == sector[32 * j + 0x0B];
    }
  }

  lemma MarkedSlot(sector: seq<Byte>, lo: nat, i: nat, cluster: nat, s: nat, j: nat)
    requires |sector| == 512 && j < 16
    ensures SectorSlots(Marked(sector, lo, i), cluster, s)[j]
            == (var t := SectorSlots(sector, cluster, s)[j]; if lo <= j <= i then Erased(t) else t)
  {
    var m := Marked(sector, lo, i);
    var was, now := sector[32 * j..32 * j + 32], m[32 * j..32 * j + 32];
    forall b: nat | b < 32 ensures now[b] == if b == 0 && lo <= j <= i then 0xE5 else was[b] {
      assert (32 * j + b) % 32 == b && (32 * j + b) / 32 == j;
    }
    assert now == if lo <= j <= i then was[0 := 0xE5] else was;
  }

  lemma {:induction false} ClusterWithin(g: Geometry, disk: Disk, cluster: nat, s: nat)
    requires cluster >= 2
    ensures forall i :: 0 <= i < |ClusterSlots(g, disk, cluster, s)| ==>
              ClusterSlots(g, disk, cluster, s)[i].offset < 512 * g.spc && ClusterSlots(g, disk, cluster, s)[i].offset % 32 == 0
    decreases g.spc - s
  {
    if s < g.spc {
      ClusterWithin(g, disk, cluster, s + 1);
    }
  }

  ghost predicate Within(g: Geometry, c: seq<nat>, t: Slot) { t.cluster in c && t.offset < 512 * g.spc && t.offset % 32 == 0 }

  lemma {:induction false} DirWithin(g: Geometry, disk: Disk, c: seq<nat>)
    requires InRange(g, c)
    ensures forall i :: 0 <= i < |DirSlots(g, disk, c)| ==> Within(g, c, DirSlots(g, disk, c)[i])
    decreases |c|
  {
    if c != [] {
      ClusterPlaces(g, disk, c[0], 0);
      ClusterWithin(g, disk, c[0], 0);
      DirWithin(g, disk, c[1..]);
      forall i | 0 <= i < |DirSlots(g, disk, c)| ensures Within(g, c, DirSlots(g, disk, c)[i]) {
        var n := |ClusterSlots(g, disk, c[0], 0)|;
        assert i >= n ==> DirSlots(g, disk, c)[i] == DirSlots(g, disk, c[1..])[i - n];
      }
    }
  }

  /** Where the slot of an entry is among the slots a + x + b. */
  lemma FindInSector(a: seq<Slot>, x: seq<Slot>, b: seq<Slot>, sector: seq<Byte>, cluster: nat, s: nat, i: nat, k: nat)
    requires |sector| == 512 && x == SectorSlots(sector, cluster, s) && AllElsewhere(a, cluster, s) && AllElsewhere(b, cluster, s)
    requires k < |a + x + b| && (a + x + b)[k].cluster == cluster && (a + x + b)[k].offset == 512 * s + 32 * i && i < 16
    ensures k == |a| + i
  {
    var n := |a|;
    assert forall j :: 0 <= j < |a + x + b| ==> (a + x + b)[j] == if j < n then a[j] else if j < n + 16 then x[j - n] else b[j - n - 16];
  }

  ghost predicate OneRemoved(before: seq<DirEntry>, after: seq<DirEntry>, e: DirEntry) {
    exists l, r :: before == l + [e] + r && after == l + r
  }

  lemma Regroup(a: seq<Slot>, x: seq<Slot>, lo: nat, i: nat, b: seq<Slot>)
    requires lo <= i < |x|
    ensures a + x[..lo] + x[lo..i] == a + x[..i]
    ensures a + x + b == a + x[..lo] + x[lo..i] + [x[i]] + (x[i + 1..] + b)
  {
    assert x == x[..lo] + x[lo..i] + [x[i]] + x[i + 1..];
  }

  /** Marking a sector of the directory's slots a + x + b. */
  lemma DeleteInSlots(a: seq<Slot>, b: seq<Slot>, sector: seq<Byte>, cluster: nat, s: nat, lo: nat, i: nat, e: DirEntry)
    requires Slots(a) && Slots(b) && |sector| == 512 && NamesBefore(sector, lo, i)
    requires Yields(Run(START, a + SectorSlots(sector, cluster, s)[..i]), SectorSlots(sector, cluster, s)[i], e)
    ensures var was, now := Run(START, a + SectorSlots(sector, cluster, s) + b), Run(START, a + SectorSlots(Marked(sector, lo, i), cluster, s) + b);
            was.ended == now.ended && OneRemoved(was.out, now.out, e)
  {
    var x, x2 := SectorSlots(sector, cluster, s), SectorSlots(Marked(sector, lo, i), cluster, s);
    MarkedSlots(sector, lo, i, cluster, s);
    var a1, names, names2, b1 := a + x[..lo], x[lo..i], x2[lo..i], x[i + 1..] + b;
    Regroup(a, x, lo, i, b);
    Regroup(a, x2, lo, i, b);
    DeleteOne(a1, names, x[i], b1, names2, START, e);
  }

  lemma EntryPlace(g: Geometry, disk: Disk, c: seq<nat>, e: DirEntry) returns (k: nat, p: nat)
    requires InRange(g, c) && e in Scanned(g, disk, c).out
    ensures var ss := DirSlots(g, disk, c);
            k < |ss| && Yields(Run(START, ss[..k]), ss[k], e) && ss[k].cluster == e.cluster && ss[k].offset == e.offset
    ensures p < |c| && c[p] == e.cluster && e.offset < 512 * g.spc && e.offset % 32 == 0
  {
    var ss := DirSlots(g, disk, c);
    k := EntryComesFrom(START, ss, e);
    DirWithin(g, disk, c);
    assert Within(g, c, ss[k]);
    p :| 0 <= p < |c| && c[p] == e.cluster;
  }

  /** Deleting at a reported location removes exactly that entry from the listing. */
  lemma DeleteInDir(g: Geometry, disk: Disk, disk2: Disk, c: seq<nat>, e: DirEntry, s: nat, lba: nat, lo: nat, i: nat)
    requires Good(g) && InRange(g, c) && NoDup(c) && e in Scanned(g, disk, c).out && e.cluster >= 2
    requires e.offset == 512 * s + 32 * i && lba == Base(g, e.cluster) + s && DiffersAt(disk, disk2, lba)
    requires NamesBefore(Sector(disk, lba), lo, i) && Sector(disk2, lba) == Marked(Sector(disk, lba), lo, i)
    ensures OneRemoved(Scanned(g, disk, c).out, Scanned(g, disk2, c).out, e)
    ensures Scanned(g, disk, c).ended == Scanned(g, disk2, c).ended
  {
    var ss := DirSlots(g, disk, c);
    var k, p := EntryPlace(g, disk, c, e);
    var a, b := DirSplit(g, disk, disk2, c, p, s, lba);
    var sector := Sector(disk, lba);
    var x := SectorSlots(sector, e.cluster, s);
    FindInSector(a, x, b, sector, e.cluster, s, i, k);
    assert ss[..k] == a + x[..i] && ss[k] == x[i];
    DeleteInSlots(a, b, sector, e.cluster, s, lo, i, e);
  }

  lemma PrefixRange(g: Geometry, c: seq<nat>, n: nat)
    requires InRange(g, c) && NoDup(c) && n <= |c|
    ensures InRange(g, c[..n]) && NoDup(c[..n]) && forall x :: x in c[..n] ==> x in c
  {
  }

  lemma SectorInChain(g: Geometry, c: seq<nat>, cluster: nat, s: nat)
    requires InRange(g, c) && cluster in c && s < g.spc
    ensures Base(g, cluster) + s in Lbas(g, c)
  {
    var i :| 0 <= i < |c| && c[i] == cluster;
    LbasWithin(g, c, i);
    assert From(Base(g, cluster), g.spc)[s] == Base(g, cluster) + s;
  }

  /** Changing a sector of a chain keeps the volume sound. */
  lemma OneSector(g: Geometry, disk: Disk, disk2: Disk, fat: seq<nat>, dirty: seq<bool>, free: nat, chains: set<seq<nat>>, c: seq<nat>, cluster: nat, s: nat, lba: nat)
    requires Sound(g, disk, fat, dirty, free, chains) && InRange(g, c) && cluster in c && s < g.spc && cluster >= 2
    requires lba == Base(g, cluster) + s && DiffersAt(disk, disk2, lba)
    ensures Sound(g, disk2, fat, dirty, free, chains) && SameBut(disk, disk2, Lbas(g, c))
  {
    SectorInChain(g, c, cluster, s);
    DataStep(g, disk, disk2, fat, dirty, free, chains, c);
  }

  /** A reported entry lies in one of the directory's clusters. */
  lemma EntryLies(g: Geometry, disk: Disk, c: seq<nat>, e: DirEntry)
    requires InRange(g, c) && NoDup(c) && Listing(g, disk, c).Ok? && e in Listing(g, disk, c).value
    ensures e.cluster in c && 2 <= e.cluster < g.fatSize * 128 && e.offset / 512 < g.spc && e.offset % 32 == 0
  {
    var n := Min(|c|, CHAIN_GUARD + 1);
    PrefixRange(g, c, n);
    var k, p := EntryPlace(g, disk, c[..n], e);
    assert c[..n][p] in c[..n];
  }

  lemma DeleteListing(g: Geometry, disk: Disk, disk2: Disk, c: seq<nat>, e: DirEntry, s: nat, lba: nat, lo: nat, i: nat)
    requires Good(g) && InRange(g, c) && NoDup(c) && Listing(g, disk, c).Ok? && e in Listing(g, disk, c).value && e.cluster >= 2
    requires e.offset == 512 * s + 32 * i && lba == Base(g, e.cluster) + s && DiffersAt(disk, disk2, lba)
    requires NamesBefore(Sector(disk, lba), lo, i) && Sector(disk2, lba) == Marked(Sector(disk, lba), lo, i)
    ensures Listing(g, disk2, c).Ok? && OneRemoved(Listing(g, disk, c).value, Listing(g, disk2, c).value, e)
  {
    var n := Min(|c|, CHAIN_GUARD + 1);
    PrefixRange(g, c, n);
    DeleteInDir(g, disk, disk2, c[..n], e, s, lba, lo, i);
  }

  method MarkSector(v: Volume, lba: nat, at: nat) returns (ok: bool, ghost lo: nat)
    requires at < 512 && at % 32 == 0
    modifies v`disk
    ensures DiffersAt(old(v.disk), v.disk, lba)
    ensures ok ==> NamesBefore(Sector(old(v.disk), lba), lo, at / 32) && Sector(v.disk, lba) == Marked(Sector(old(v.disk), lba), lo, at / 32)
  {
    ok, lo := false, 0;
    var sector := v.ReadSector(lba);
    if sector.Ok? {
      var erased;
      erased, lo := EraseRun(sector.value, at);
      ok := v.WriteSector(lba, erased);
    }
  }

  lemma OffsetParts(offset: nat)
    requires offset % 32 == 0
    ensures offset % 512 % 32 == 0 && offset == 512 * (offset / 512) + 32 * (offset % 512 / 32)
  {
  }

  /** Deletes the entry `e` that `read_dir` reported for the directory on `c`: the new
      listing is the old one without that entry. Only a sector of the directory
      changes, whatever the outcome. */
  method DeleteEntryAt(v: Volume, ghost c: seq<nat>, ghost e: DirEntry, cluster: nat, offset: nat) returns (r: Result<(), FatError>)
    requires v.Valid() && c in v.chains && InRange(v.g, c) && cluster == e.cluster && offset == e.offset
    requires Listing(v.g, v.disk, c).Ok? && e in Listing(v.g, v.disk, c).value
    modifies v`disk
    ensures v.Valid() && SameBut(old(v.disk), v.disk, Lbas(v.g, c)) && (r == Ok(()) || r == Err(Io))
    ensures r.Ok? ==> Listing(v.g, v.disk, c).Ok? && OneRemoved(Listing(v.g, old(v.disk), c).value, Listing(v.g, v.disk, c).value, e)
  {
    EntryLies(v.g, v.disk, c, e);
    SectorExact(v.g, cluster);
    OffsetParts(offset);
    var s, at := offset / 512, offset % 512;
    var lba := ToSector(v.g, cluster) + s;
    ghost var disk0 := v.disk;
    ghost var lo;
    var ok;
    ok, lo := MarkSector(v, lba, at);
    OneSector(v.g, disk0, v.disk, v.fat, v.dirty, v.free, v.chains, c, cluster, s, lba);
    if ok {
      DeleteListing(v.g, disk0, v.disk, c, e, s, lba, lo, at / 32);
    }
    r := if ok then Ok(()) else Err(Io);
  }

  lemma {:induction false} SlotsSame(g: Geometry, disk: Disk, disk2: Disk, c: seq<nat>)
    requires InRange(g, c) && SameData(g, disk, disk2)
    ensures DirSlots(g, disk2, c) == DirSlots(g, disk, c)
    decreases |c|
  {
    if c != [] {
      MulLe(0, c[0] - 2, g.spc);
      ClusterSame(g, disk, disk2, c[0], 0);
      SlotsSame(g, disk, disk2, c[1..]);
    }
  }

  /** Writing the table back changes no directory. */
  lemma FlushSame(g: Geometry, disk: Disk, disk2: Disk, c: seq<nat>)
    requires InRange(g, c) && SameData(g, disk, disk2)
    ensures Listing(g, disk2, c) == Listing(g, disk, c) && Scanned(g, disk2, c) == Scanned(g, disk, c)
  {
    SlotsSame(g, disk, disk2, c[..Min(|c|, CHAIN_GUARD + 1)]);
    SlotsSame(g, disk, disk2, c);
  }
}
