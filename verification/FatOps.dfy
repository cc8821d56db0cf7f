/** The operations that change a volume (src/fat.rs:376-496), once their path is resolved:
    writing and removing a file, making a directory, renaming. */
module FatOps {
  import opened Wrappers
  import opened Bytes
  import opened Fat
  import opened FatVolume
  import opened Directory
  import opened LongName
  import opened Insertion
  import opened FatFiles
  import opened FatEntries
  import opened Lookup

  lemma SameFilesTrans(g: Geometry, d1: Disk, d2: Disk, d3: Disk, a: set<seq<nat>>, b: set<seq<nat>>, kept: set<seq<nat>>)
    requires SameFiles(g, d1, d2, a) && SameFiles(g, d2, d3, b) && kept <= a && kept <= b
    ensures SameFiles(g, d1, d3, kept)
  {
  }

  /** Changes inside one chain leave the files on all others. */
  lemma OtherFiles(g: Geometry, disk: Disk, disk2: Disk, chains: set<seq<nat>>, c: seq<nat>)
    requires Good(g) && InRange(g, c) && SameBut(disk, disk2, Lbas(g, c)) && forall d :: d in chains ==> Apart(c, d)
    ensures SameFiles(g, disk, disk2, chains)
  {
    forall d, n: nat | d in chains && InRange(g, d) ensures FileData(g, disk2, d, n) == FileData(g, disk, d, n) {
      OtherData(g, disk, disk2, c, d, n);
    }
  }

  /** The entry's own file: no chain for an empty one. */
  ghost predicate OwnChain(chains: set<seq<nat>>, c: seq<nat>, e: DirEntry, own: seq<nat>) {
    e.first != 0 ==> own in chains && own != c && |own| > 0 && own[0] == e.first
  }

  ghost function Without(chains: set<seq<nat>>, e: DirEntry, gone: seq<nat>): set<seq<nat>> {
    if e.first != 0 then chains - {gone} else chains
  }

  /** Deletes an entry and frees its file's chain. Every other chain and its file stays. */
  method DropFile(v: Volume, ghost c: seq<nat>, e: DirEntry, ghost gone: seq<nat>) returns (r: Result<(), FatError>)
    requires v.Valid() && c in v.chains && InRange(v.g, c) && OwnChain(v.chains, c, e, gone)
    requires Listing(v.g, v.disk, c).Ok? && e in Listing(v.g, v.disk, c).value
    modifies v
    ensures v.Valid() && SameFiles(v.g, old(v.disk), v.disk, old(v.chains) - {c})
    ensures Without(old(v.chains), e, gone) <= v.chains && c in v.chains
    ensures r.Ok? ==> v.chains == Without(old(v.chains), e, gone)
    ensures r.Ok? ==> v.free == old(v.free) + (if e.first != 0 then |gone| else 0)
    ensures r.Ok? ==> Listing(v.g, v.disk, c).Ok? && OneRemoved(Listing(v.g, old(v.disk), c).value, Listing(v.g, v.disk, c).value, e)
    ensures r.Err? ==> r.error == Io || (r.error == Corrupt && e.first != 0 && |gone| > CHAIN_GUARD + 1)
  {
    r := DeleteEntryAt(v, c, e, e.cluster, e.offset);
    OtherFiles(v.g, old(v.disk), v.disk, v.chains - {c}, c);
    if r.Ok? && e.first != 0 {
      r := v.FreeChain(gone, e.first);
    }
  }

  /** `remove_impl` once the entry is found and, for a directory, known to be empty. */
  method DropEntry(v: Volume, ghost c: seq<nat>, e: DirEntry, ghost gone: seq<nat>) returns (r: Result<(), FatError>)
    requires v.Valid() && c in v.chains && InRange(v.g, c) && OwnChain(v.chains, c, e, gone)
    requires Listing(v.g, v.disk, c).Ok? && e in Listing(v.g, v.disk, c).value
    modifies v
    ensures v.Valid() && SameFiles(v.g, old(v.disk), v.disk, old(v.chains) - {c})
    ensures Without(old(v.chains), e, gone) <= v.chains && (r.Err? ==> DiskError(r.error))
    ensures r.Ok? ==> v.chains == Without(old(v.chains), e, gone) && AllClean(v.dirty, |v.dirty|)
    ensures r.Ok? ==> Listing(v.g, v.disk, c).Ok? && OneRemoved(Listing(v.g, old(v.disk), c).value, Listing(v.g, v.disk, c).value, e)
  {
    r := DropFile(v, c, e, gone);
    if r.Ok? {
      ghost var disk1 := v.disk;
      r := v.FlushFat();
      FlushSame(v.g, disk1, v.disk, c);
      SameDataFiles(v.g, disk1, v.disk, old(v.chains) - {c});
      SameFilesTrans(v.g, old(v.disk), disk1, v.disk, old(v.chains) - {c}, old(v.chains) - {c}, old(v.chains) - {c});
    }
  }

  /** Where an entry was put: cluster `p` and slot `i`; the free run was found in sector `s`,
      on the disk `grown` that a full directory was extended on. */
  datatype Place = Place(grown: Disk, p: nat, s: nat, i: nat)

  ghost predicate PutAs(g: Geometry, disk: Disk, disk2: Disk, c: seq<nat>, c2: seq<nat>, at: Place, name: seq<nat>, m: Meta)
    requires InRange(g, c) && ValidName(name)
  {
    EntryPut(g, disk, at.grown, disk2, c, c2, at.p, at.s, at.i, SlotsFor(name, m))
  }

  /** Writing the table back keeps what was put. */
  lemma FlushKeepsPut(g: Geometry, disk: Disk, disk2: Disk, disk3: Disk, c: seq<nat>, c2: seq<nat>, at: Place, name: seq<nat>, m: Meta)
    requires Good(g) && InRange(g, c) && InRange(g, c2) && ValidName(name) && PutAs(g, disk, disk2, c, c2, at, name, m) && SameData(g, disk2, disk3)
    ensures PutAs(g, disk, disk3, c, c2, at, name, m)
  {
    FirstSectorData(g, c2[at.p]);
  }

  lemma OthersApart(fat: seq<nat>, chains: set<seq<nat>>, c: seq<nat>, c2: seq<nat>)
    requires Formed(fat, chains) && c in chains && forall x :: x in c2 ==> x in c || !InUse(chains, x)
    ensures forall d :: d in chains - {c} ==> Apart(c2, d)
  {
    forall d | d in chains - {c} ensures Apart(c2, d) {
      assert Apart(c, d);
      assert forall x :: x in d ==> InUse(chains, x);
    }
  }

  /** No data sector but those in `lbas` changed. */
  ghost predicate SameDataBut(g: Geometry, disk: Disk, disk2: Disk, lbas: seq<nat>) {
    forall x: nat :: x >= g.firstData && x !in lbas ==> Sector(disk2, x) == Sector(disk, x)
  }

  /** Enters a name into its directory and writes the table back. */
  method Enter(v: Volume, ghost c: seq<nat>, parent: nat, name: seq<nat>, m: Meta)
    returns (r: Result<(), FatError>, ghost c2: seq<nat>, ghost at: Place)
    requires v.Valid() && c in v.chains && InRange(v.g, c) && parent == c[0] && ValidName(name) && MetaOk(m)
    modifies v
    ensures v.Valid() && v.chains == old(v.chains) - {c} + {c2} && InRange(v.g, c2) && NoDup(c2)
    ensures SameFiles(v.g, old(v.disk), v.disk, old(v.chains) - {c})
    ensures SameDataBut(v.g, old(v.disk), v.disk, Lbas(v.g, c2)) && forall d :: d in old(v.chains) - {c} ==> Apart(c2, d)
    ensures r.Ok? ==> AllClean(v.dirty, |v.dirty|) && PutAs(v.g, old(v.disk), v.disk, c, c2, at, name, m)
    ensures r.Err? ==> r.error == Io || r.error == OutOfSpace || r.error == Corrupt
  {
    ghost var disk0, chains0, fat0, others := v.disk, v.chains, v.fat, v.chains - {c};
    ghost var grown, p, s, i;
    r, c2, grown, p, s, i := WriteDirEntries(v, c, parent, name, m);
    at := Place(grown, p, s, i);
    OthersApart(fat0, chains0, c, c2);
    OtherFiles(v.g, disk0, v.disk, others, c2);
    NewInRange(v.g, v.disk, v.fat, v.dirty, v.free, v.chains, c2);
    if r.Ok? {
      ghost var disk1 := v.disk;
      r := v.FlushFat();
      FlushKeepsPut(v.g, disk0, disk1, v.disk, c, c2, at, name, m);
      SameDataFiles(v.g, disk1, v.disk, others);
      SameFilesTrans(v.g, disk0, disk1, v.disk, others, others, others);
    }
  }

  /** The file reads back as `content`, as far as the loop guard lets it. */
  ghost predicate Stored(g: Geometry, disk: Disk, chains: set<seq<nat>>, cs: seq<nat>, content: seq<Byte>) {
    content != [] ==> cs in chains && InRange(g, cs)
                      && FileData(g, disk, cs, |content|) == if |cs| <= CHAIN_GUARD + 1 then Ok(content) else Err(Corrupt)
  }

  /** The entry of a file with the chain `cs`. */
  ghost function FileMeta(cs: seq<nat>, content: seq<Byte>, date: nat, time: nat): Meta
    requires content != [] ==> |cs| > 0
  {
    Meta(false, if content == [] then 0 else cs[0], |content| % WRAP, date, time)
  }

  /** Stores a content in a new chain and enters it. Its directory is as before until the
      entry is put, on disk `mid`. */
  method StoreAndEnter(v: Volume, ghost c: seq<nat>, parent: nat, name: seq<nat>, content: seq<Byte>, date: nat, time: nat)
    returns (r: Result<(), FatError>, ghost cs: seq<nat>, ghost c2: seq<nat>, ghost mid: Disk, ghost at: Place)
    requires v.Valid() && c in v.chains && InRange(v.g, c) && parent == c[0] && ValidName(name) && date < 0x1_0000 && time < 0x1_0000
    modifies v
    ensures v.Valid() && SameFiles(v.g, old(v.disk), v.disk, old(v.chains) - {c})
    ensures old(v.chains) - {c} <= v.chains
    ensures r.Ok? ==> AllClean(v.dirty, |v.dirty|) && c2 in v.chains && InRange(v.g, c2) && NoDup(c2) && Stored(v.g, v.disk, v.chains, cs, content)
    ensures r.Ok? ==> content != [] ==> |cs| > 0
    ensures r.Ok? ==> SameDir(v.g, old(v.disk), mid, c) && PutAs(v.g, mid, v.disk, c, c2, at, name, FileMeta(cs, content, date, time))
    ensures r.Err? ==> DiskError(r.error)
  {
    var first;
    c2, mid, at := c, v.disk, Place(v.disk, 0, 0, 0);
    ghost var disk0, chains0, others := v.disk, v.chains, v.chains - {c};
    first, cs := v.StoreContent(content);
    if first.Err? {
      r := Err(first.error);
    } else {
      mid := v.disk;
      ghost var chains1 := v.chains;
      StoredApart(v.g, v.disk, v.fat, v.dirty, v.free, chains0, chains1, c, cs, content);
      DirKept(v.g, disk0, mid, chains0, c, cs, content);
      var m := Meta(false, first.value, |content| % WRAP, date, time);
      assert MetaOk(m);
      r, c2, at := Enter(v, c, parent, name, m);
      SameFilesTrans(v.g, disk0, mid, v.disk, chains0, chains1 - {c}, others);
    }
  }

  /** The directory's slots are the same, as far as `read_dir` goes and in all. */
  ghost predicate SameDir(g: Geometry, disk: Disk, disk2: Disk, c: seq<nat>)
    requires InRange(g, c)
  {
    Scanned(g, disk2, c) == Scanned(g, disk, c) && Listing(g, disk2, c) == Listing(g, disk, c)
  }

  /** Sectors of clusters that are not the directory's. */
  lemma DirApart(g: Geometry, disk: Disk, disk2: Disk, c: seq<nat>, cs: seq<nat>)
    requires Good(g) && InRange(g, c) && InRange(g, cs) && Apart(cs, c) && SameBut(disk, disk2, Lbas(g, cs))
    ensures SameDir(g, disk, disk2, c)
  {
    var front := c[..Min(|c|, CHAIN_GUARD + 1)];
    LbasApart(g, cs, c);
    LbasApart(g, cs, front);
    DirUntouched(g, disk, disk2, c);
    DirUntouched(g, disk, disk2, front);
  }

  lemma DirKept(g: Geometry, disk: Disk, disk2: Disk, was: set<seq<nat>>, c: seq<nat>, cs: seq<nat>, content: seq<Byte>)
    requires Good(g) && c in was && InRange(g, c) && (content == [] ==> disk2 == disk)
    requires content != [] ==> New(was, cs) && InRange(g, cs) && SameBut(disk, disk2, Lbas(g, cs))
    ensures SameDir(g, disk, disk2, c)
  {
    if content != [] {
      assert forall x :: x in c ==> InUse(was, x);
      DirApart(g, disk, disk2, c, cs);
    }
  }

  lemma StoredApart(g: Geometry, disk: Disk, fat: seq<nat>, dirty: seq<bool>, free: nat, was: set<seq<nat>>, chains: set<seq<nat>>, c: seq<nat>, cs: seq<nat>, content: seq<Byte>)
    requires Sound(g, disk, fat, dirty, free, chains) && c in was && |c| > 0 && was <= chains
    requires content != [] ==> New(was, cs) && cs in chains && |cs| > 0
    ensures content != [] ==> cs in chains - {c} && 2 <= cs[0] < |fat| < 0x1_0000_0000
  {
    if content != [] {
      assert cs[0] in cs && c[0] in c;
      assert InUse(was, c[0]);
      ChainAt(fat, cs, 0);
    }
  }

  ghost function Rest(chains: set<seq<nat>>, existing: Option<DirEntry>, gone: seq<nat>): set<seq<nat>> {
    if existing.Some? then Without(chains, existing.value, gone) else chains
  }

  /** On disk `mid` the directory lists what it listed, but for `existing`. */
  ghost predicate ListsBut(g: Geometry, disk: Disk, mid: Disk, c: seq<nat>, existing: Option<DirEntry>)
    requires InRange(g, c)
  {
    if existing.None? then SameDir(g, disk, mid, c)
    else Listing(g, disk, c).Ok? && Listing(g, mid, c).Ok? && OneRemoved(Listing(g, disk, c).value, Listing(g, mid, c).value, existing.value)
  }

  /** The new file's content reads back from chain `cs`, and its entry is put into the directory,
      now on `c2`, that on disk `mid` listed all but `existing`. */
  ghost predicate WrittenBy(g: Geometry, disk: Disk, disk2: Disk, chains2: set<seq<nat>>, c: seq<nat>, existing: Option<DirEntry>, name: seq<nat>, content: seq<Byte>, date: nat, time: nat,
                            cs: seq<nat>, c2: seq<nat>, mid: Disk, at: Place)
    requires InRange(g, c)
  {
    && ValidName(name) && c2 in chains2 && InRange(g, c2) && NoDup(c2) && Stored(g, disk2, chains2, cs, content) && (content != [] ==> |cs| > 0)
    && ListsBut(g, disk, mid, c, existing) && PutAs(g, mid, disk2, c, c2, at, name, FileMeta(cs, content, date, time))
  }

  ghost predicate FileWritten(g: Geometry, disk: Disk, disk2: Disk, chains2: set<seq<nat>>, c: seq<nat>, existing: Option<DirEntry>, name: seq<nat>, content: seq<Byte>, date: nat, time: nat)
    requires InRange(g, c)
  {
    exists cs: seq<nat>, c2: seq<nat>, mid: Disk, at: Place :: WrittenBy(g, disk, disk2, chains2, c, existing, name, content, date, time, cs, c2, mid, at)
  }

  predicate DiskError(e: FatError) { e == Io || e == OutOfSpace || e == Corrupt }

  /** `write_file_impl` once the parent directory and any entry of that name are found. */
  method ReplaceFile(v: Volume, ghost c: seq<nat>, parent: nat, existing: Option<DirEntry>, ghost gone: seq<nat>, name: seq<nat>, content: seq<Byte>, date: nat, time: nat)
    returns (r: Result<(), FatError>)
    requires v.Valid() && c in v.chains && InRange(v.g, c) && parent == c[0] && ValidName(name) && date < 0x1_0000 && time < 0x1_0000
    requires existing.Some? ==> Listing(v.g, v.disk, c).Ok? && existing.value in Listing(v.g, v.disk, c).value
    requires existing.Some? ==> OwnChain(v.chains, c, existing.value, gone)
    modifies v
    ensures v.Valid() && SameFiles(v.g, old(v.disk), v.disk, Rest(old(v.chains), existing, gone) - {c})
    ensures Rest(old(v.chains), existing, gone) - {c} <= v.chains
    ensures r == Err(NotDir) <==> existing.Some? && existing.value.isDir
    ensures r == Err(NotDir) ==> Same(old(v.disk), v.disk, old(v.chains), v.chains)
    ensures r.Err? ==> r.error == NotDir || DiskError(r.error)
    ensures r.Ok? ==> AllClean(v.dirty, |v.dirty|) && FileWritten(v.g, old(v.disk), v.disk, v.chains, c, existing, name, content, date, time)
  {
    ghost var disk0, kept := v.disk, Rest(v.chains, existing, gone) - {c};
    r := Ok(());
    if existing.Some? && existing.value.isDir {
      r := Err(NotDir);
    } else if existing.Some? {
      r := DropFile(v, c, existing.value, gone);
    }
    if r.Ok? {
      ghost var disk1, chains1 := v.disk, v.chains;
      ghost var cs, c2, mid, at;
      r, cs, c2, mid, at := StoreAndEnter(v, c, parent, name, content, date, time);
      SameFilesTrans(v.g, disk0, disk1, v.disk, kept, chains1 - {c}, kept);
      if r.Ok? {
        assert WrittenBy(v.g, disk0, v.disk, v.chains, c, existing, name, content, date, time, cs, c2, mid, at);
      }
    }
  }

  /** Nothing changed on the volume. */
  ghost predicate Same(disk: Disk, disk2: Disk, chains: set<seq<nat>>, chains2: set<seq<nat>>) { disk2 == disk && chains2 == chains }

  // ---- making a directory --------------------------------------------------------------------------------

  /** The entry "." or "..": an 11-byte name, the directory attribute and a cluster. */
  function DotSlot(dots: nat, cluster: nat): (r: seq<Byte>)
    ensures |r| == 32
  {
    seq(32, b requires 0 <= b < 32 =>
      if b < 11 then (if b < dots then 0x2E else 0x20)
      else if b == 0x0B then 0x10
      else if b == 0x14 || b == 0x15 then ByteOf(cluster / 0x1_0000, b - 0x14)
      else if b == 0x1A || b == 0x1B then ByteOf(cluster % 0x1_0000, b - 0x1A)
      else 0)
  }

  /** The first sector of a new directory. */
  function DotSector(cluster: nat, parent: nat): (r: seq<Byte>)
    ensures |r| == 512
  {
    DotSlot(1, cluster) + DotSlot(2, parent) + seq(448, _ => 0)
  }

  lemma DotNamed(b: seq<Byte>, dots: nat, cluster: nat)
    requires b == DotSlot(dots, cluster) && 1 <= dots <= 2
    ensures SfnName(b) == if dots == 1 then DOT else DOTDOT
  {
    var name, ext := b[..8], b[8..11];
    assert ext[0] == 0x20 && UntilSpace(ext) == [];
    var rest := name[1..];
    assert name[0] == 0x2E && UntilSpace(name) == [0x2E] + UntilSpace(rest);
    if dots == 1 {
      assert rest[0] == 0x20 && UntilSpace(rest) == [];
    } else {
      assert rest[0] == 0x2E && rest[1..][0] == 0x20 && UntilSpace(rest[1..]) == [];
      assert UntilSpace(rest) == [0x2E] + UntilSpace(rest[1..]);
    }
  }

  /** The scan of a new directory: the two dot entries are not listed, and it ends behind
      them, whatever the rest of the cluster holds. */
  lemma DotScan(ss: seq<Slot>, cluster: nat, parent: nat)
    requires Slots(ss) && |ss| > 2 && ss[0].bytes == DotSlot(1, cluster) && ss[1].bytes == DotSlot(2, parent) && ss[2].bytes[0] == 0x00
    ensures Run(START, ss) == Scan([], [], true)
  {
    DotNamed(ss[0].bytes, 1, cluster);
    DotNamed(ss[1].bytes, 2, parent);
    assert Step(START, ss[0]) == START && Step(START, ss[1]) == START;
    var end := Scan([], [], true);
    assert Step(START, ss[2]) == end;
    assert ss[0..] == ss;
    RunHead(START, ss, 0, 1);
    RunHead(START, ss, 1, 2);
    RunHead(START, ss, 2, 3);
    RunEnded(end, ss[3..]);
  }

  /** A cluster whose first sector is that of a new directory lists nothing. */
  lemma DotLists(g: Geometry, disk: Disk, x: nat, parent: nat)
    requires Good(g) && 2 <= x < g.fatSize * 128 && Sector(disk, Base(g, x)) == DotSector(x, parent)
    ensures InRange(g, [x]) && Listing(g, disk, [x]) == Ok([])
  {
    var c, sector: seq<Byte> := [x], DotSector(x, parent);
    assert c[1..] == [] && c[..1] == c;
    var first, rest := SectorSlots(sector, x, 0), ClusterSlots(g, disk, x, 1);
    assert Sector(disk, Base(g, x) + 0) == sector;
    DotSlots(x, parent, first);
    assert ClusterSlots(g, disk, x, 0) == first + rest;
    var none: seq<Slot> := [];
    assert DirSlots(g, disk, c) == first + rest + none;
    DotScan(first + rest + none, x, parent);
  }

  lemma DotSlots(x: nat, parent: nat, first: seq<Slot>)
    requires first == SectorSlots(DotSector(x, parent), x, 0)
    ensures first[0].bytes == DotSlot(1, x) && first[1].bytes == DotSlot(2, parent) && first[2].bytes[0] == 0x00
  {
    var sector := DotSector(x, parent);
    assert sector[32 * 0..32 * 0 + 32] == DotSlot(1, x);
    assert sector[32 * 1..32 * 1 + 32] == DotSlot(2, parent);
    assert first[2].bytes[0] == sector[64];
  }

  /** `alloc_cluster` and the end mark `make_dir_impl` writes once more. */
  method ClaimCluster(v: Volume) returns (r: Result<nat, FatError>)
    requires v.Valid()
    modifies v`fat, v`dirty, v`free, v`chains
    ensures v.Valid()
    ensures r.Err? ==> r.error == OutOfSpace && v.chains == old(v.chains)
    ensures r.Ok? ==> 2 <= r.value < v.g.fatSize * 128 && !InUse(old(v.chains), r.value) && v.chains == old(v.chains) + {[r.value]}
  {
    r := v.AllocCluster();
    if r.Ok? {
      ghost var fat, dirty := v.fat, v.dirty;
      v.SetCluster(r.value, EOF_MARK);
      SameEntry(fat, r.value);
      DirtyMore(v.g, v.disk, v.fat, dirty, v.free, v.chains, r.value / 128);
    }
  }

  lemma SameEntry(fat: seq<nat>, x: nat)
    requires x < |fat| && fat[x] == EOF_MARK
    ensures fat[x := EOF_MARK] == fat
  {
  }

  /** A sector marked dirty without need does no harm. */
  lemma DirtyMore(g: Geometry, disk: Disk, fat: seq<nat>, dirty: seq<bool>, free: nat, chains: set<seq<nat>>, s: nat)
    requires Sound(g, disk, fat, dirty, free, chains) && s < |dirty|
    ensures Sound(g, disk, fat, dirty[s := true], free, chains)
  {
  }

  /** A cluster for a new directory, with its two dot entries in the first sector. The
      directory it will be entered in is untouched. */
  method StartDir(v: Volume, ghost c: seq<nat>, parent: nat) returns (r: Result<nat, FatError>)
    requires v.Valid() && c in v.chains && InRange(v.g, c)
    modifies v
    ensures v.Valid() && SameFiles(v.g, old(v.disk), v.disk, old(v.chains)) && old(v.chains) <= v.chains
    ensures r.Ok? ==> v.chains == old(v.chains) + {[r.value]} && InRange(v.g, [r.value]) && !InUse(old(v.chains), r.value)
    ensures r.Ok? ==> SameDir(v.g, old(v.disk), v.disk, c) && Sector(v.disk, Base(v.g, r.value)) == DotSector(r.value, parent)
    ensures r.Err? ==> r.error == OutOfSpace || r.error == Io
  {
    ghost var disk0, chains0 := v.disk, v.chains;
    r := ClaimCluster(v);
    if r.Ok? {
      var x := r.value;
      SectorExact(v.g, x);
      var ok := v.WriteSector(ToSector(v.g, x), DotSector(x, parent));
      Started(v.g, disk0, v.disk, v.fat, v.dirty, v.free, chains0, c, x);
      if !ok {
        r := Err(Io);
      }
    }
  }

  lemma Started(g: Geometry, disk: Disk, disk2: Disk, fat: seq<nat>, dirty: seq<bool>, free: nat, was: set<seq<nat>>, c: seq<nat>, x: nat)
    requires Sound(g, disk, fat, dirty, free, was + {[x]}) && c in was && InRange(g, c) && 2 <= x < g.fatSize * 128 && !InUse(was, x)
    requires DiffersAt(disk, disk2, Base(g, x))
    ensures InRange(g, [x]) && Sound(g, disk2, fat, dirty, free, was + {[x]}) && SameFiles(g, disk, disk2, was) && SameDir(g, disk, disk2, c)
  {
    var one := [x];
    LbasOne(g, x);
    assert From(Base(g, x), g.spc)[0] == Base(g, x);
    assert SameBut(disk, disk2, Lbas(g, one));
    DataStep(g, disk, disk2, fat, dirty, free, was + {one}, one);
    assert forall y :: y in c ==> InUse(was, y);
    DirApart(g, disk, disk2, c, one);
    NewKeepsFiles(g, disk, disk2, was, one);
  }

  /** Entering it elsewhere leaves its first sector. */
  lemma StaysStarted(g: Geometry, disk: Disk, disk2: Disk, c2: seq<nat>, x: nat, parent: nat)
    requires Good(g) && InRange(g, c2) && 2 <= x < g.fatSize * 128 && x !in c2 && SameDataBut(g, disk, disk2, Lbas(g, c2))
    requires Sector(disk, Base(g, x)) == DotSector(x, parent)
    ensures Sector(disk2, Base(g, x)) == DotSector(x, parent) && Listing(g, disk2, [x]) == Ok([])
  {
    LbasOne(g, x);
    assert From(Base(g, x), g.spc)[0] == Base(g, x);
    LbasApart(g, c2, [x]);
    FirstSectorData(g, x);
    DotLists(g, disk2, x, parent);
  }

  /** The directory on the new chain [x] lists nothing, its first entries name itself and its
      parent, and it is entered. */
  ghost predicate MadeBy(g: Geometry, disk: Disk, disk2: Disk, chains: set<seq<nat>>, chains2: set<seq<nat>>, c: seq<nat>, parent: nat, name: seq<nat>, date: nat, time: nat,
                         x: nat, c2: seq<nat>, mid: Disk, at: Place)
    requires InRange(g, c)
  {
    && ValidName(name) && chains2 == chains + {[x]} - {c} + {c2} && InRange(g, c2) && NoDup(c2)
    && InRange(g, [x]) && !InUse(chains, x) && Listing(g, disk2, [x]) == Ok([]) && Sector(disk2, Base(g, [x][0])) == DotSector(x, parent)
    && SameDir(g, disk, mid, c) && PutAs(g, mid, disk2, c, c2, at, name, Meta(true, x, 0, date, time))
  }

  ghost predicate DirMade(g: Geometry, disk: Disk, disk2: Disk, chains: set<seq<nat>>, chains2: set<seq<nat>>, c: seq<nat>, parent: nat, name: seq<nat>, date: nat, time: nat)
    requires InRange(g, c)
  {
    exists x: nat, c2: seq<nat>, mid: Disk, at: Place :: MadeBy(g, disk, disk2, chains, chains2, c, parent, name, date, time, x, c2, mid, at)
  }

  /** `make_dir_impl` once the parent is resolved: `taken` says whether the name exists. */
  method NewDir(v: Volume, ghost c: seq<nat>, parent: nat, name: seq<nat>, taken: bool, date: nat, time: nat) returns (r: Result<(), FatError>)
    requires v.Valid() && c in v.chains && InRange(v.g, c) && parent == c[0] && ValidName(name) && date < 0x1_0000 && time < 0x1_0000
    modifies v
    ensures v.Valid() && SameFiles(v.g, old(v.disk), v.disk, old(v.chains) - {c}) && old(v.chains) - {c} <= v.chains
    ensures r == Err(AlreadyExists) <==> taken
    ensures taken ==> Same(old(v.disk), v.disk, old(v.chains), v.chains)
    ensures r.Err? ==> r.error == AlreadyExists || DiskError(r.error)
    ensures r.Ok? ==> AllClean(v.dirty, |v.dirty|) && DirMade(v.g, old(v.disk), v.disk, old(v.chains), v.chains, c, parent, name, date, time)
  {
    ghost var disk0, chains0, others := v.disk, v.chains, v.chains - {c};
    if taken {
      r := Err(AlreadyExists);
    } else {
      var cluster;
      cluster := StartDir(v, c, parent);
      if cluster.Err? {
        r := Err(cluster.error);
      } else {
        ghost var x, mid := cluster.value, v.disk;
        ghost var c2, at;
        assert [x] !in chains0 && c != [x];
        r, c2, at := Enter(v, c, parent, name, Meta(true, cluster.value, 0, date, time));
        SameFilesTrans(v.g, disk0, mid, v.disk, chains0, chains0 + {[x]} - {c}, others);
        assert Apart(c2, [x]) && x in [x];
        StaysStarted(v.g, mid, v.disk, c2, x, parent);
        if r.Ok? {
          assert MadeBy(v.g, disk0, v.disk, chains0, v.chains, c, parent, name, date, time, x, c2, mid, at);
        }
      }
    }
  }

  // ---- renaming -------------------------------------------------------------------------------------------

  /** The fields of a listed entry fit their slots. */
  lemma ListedFits(g: Geometry, disk: Disk, c: seq<nat>, e: DirEntry)
    requires InRange(g, c) && Listing(g, disk, c).Ok? && e in Listing(g, disk, c).value
    ensures e.first < 0x1_0000_0000 && e.size < 0x1_0000_0000
  {
    var ss := DirSlots(g, disk, c[..Min(|c|, CHAIN_GUARD + 1)]);
    var k := EntryComesFrom(START, ss, e);
    var st := Run(START, ss[..k]);
    assert Step(st, ss[k]).out == st.out + [EntryOf(NameOf(st.parts, ss[k].bytes), ss[k])];
    assert (st.out + [e])[|st.out|] == e;
  }

  /** The entry is gone under its old name and put in under the new one, with its chain, size and
      kind. */
  ghost predicate RenamedBy(g: Geometry, disk: Disk, disk2: Disk, chains: set<seq<nat>>, chains2: set<seq<nat>>, c: seq<nat>, e: DirEntry, name: seq<nat>, date: nat, time: nat,
                            c2: seq<nat>, mid: Disk, at: Place)
    requires InRange(g, c)
  {
    && ValidName(name) && chains2 == chains - {c} + {c2} && InRange(g, c2) && NoDup(c2)
    && ListsBut(g, disk, mid, c, Some(e)) && PutAs(g, mid, disk2, c, c2, at, name, Meta(e.isDir, e.first, e.size, date, time))
  }

  ghost predicate Renamed(g: Geometry, disk: Disk, disk2: Disk, chains: set<seq<nat>>, chains2: set<seq<nat>>, c: seq<nat>, e: DirEntry, name: seq<nat>, date: nat, time: nat)
    requires InRange(g, c)
  {
    exists c2: seq<nat>, mid: Disk, at: Place :: RenamedBy(g, disk, disk2, chains, chains2, c, e, name, date, time, c2, mid, at)
  }

  /** `rename_impl` once both names are looked up. */
  method MoveEntry(v: Volume, ghost c: seq<nat>, parent: nat, e: DirEntry, name: seq<nat>, date: nat, time: nat) returns (r: Result<(), FatError>)
    requires v.Valid() && c in v.chains && InRange(v.g, c) && parent == c[0] && ValidName(name) && date < 0x1_0000 && time < 0x1_0000
    requires Listing(v.g, v.disk, c).Ok? && e in Listing(v.g, v.disk, c).value
    modifies v
    ensures v.Valid() && SameFiles(v.g, old(v.disk), v.disk, old(v.chains) - {c}) && old(v.chains) - {c} <= v.chains
    ensures r.Err? ==> DiskError(r.error)
    ensures r.Ok? ==> AllClean(v.dirty, |v.dirty|) && Renamed(v.g, old(v.disk), v.disk, old(v.chains), v.chains, c, e, name, date, time)
  {
    ghost var disk0, chains0, others := v.disk, v.chains, v.chains - {c};
    ListedFits(v.g, v.disk, c, e);
    r := DeleteEntryAt(v, c, e, e.cluster, e.offset);
    OtherFiles(v.g, disk0, v.disk, others, c);
    if r.Ok? {
      ghost var mid := v.disk;
      ghost var c2, at;
      r, c2, at := Enter(v, c, parent, name, Meta(e.isDir, e.first, e.size, date, time));
      SameFilesTrans(v.g, disk0, mid, v.disk, others, others, others);
      if r.Ok? {
        assert RenamedBy(v.g, disk0, v.disk, chains0, v.chains, c, e, name, date, time, c2, mid, at);
      }
    }
  }

  // ---- with the names looked up ---------------------------------------------------------------------------

  /** Every file with clusters and every directory listed on `c` has a chain of its own. */
  ghost predicate Linked(g: Geometry, disk: Disk, chains: set<seq<nat>>, c: seq<nat>)
    requires InRange(g, c)
  {
    Listing(g, disk, c).Ok? ==> forall e :: e in Listing(g, disk, c).value && (e.first != 0 || e.isDir) ==> HasDir(chains - {c}, e.first)
  }

  /** Looks a name up and finds the chain of what it names. */
  method FindOwned(v: Volume, ghost c: seq<nat>, parent: nat, name: seq<nat>)
    returns (found: Option<DirEntry>, ghost read: Result<seq<DirEntry>, FatError>, ghost own: seq<nat>)
    requires v.Valid() && c in v.chains && InRange(v.g, c) && parent == c[0] && Linked(v.g, v.disk, v.chains, c)
    ensures ReadOf(v.g, v.disk, c, read) && found == FoundIn(read, name)
    ensures found.Some? ==> Listing(v.g, v.disk, c).Ok? && found.value in Listing(v.g, v.disk, c).value
    ensures found.Some? ==> OwnChain(v.chains, c, found.value, own) && (found.value.isDir ==> IsDirChain(v.g, v.chains, c, found.value, own))
  {
    found, read := FindDirEntry(v, c, parent, name);
    own := c;
    if found.Some? && (found.value.first != 0 || found.value.isDir) {
      assert HasDir(v.chains - {c}, found.value.first);
      own :| own in v.chains - {c} && |own| > 0 && own[0] == found.value.first;
      NewInRange(v.g, v.disk, v.fat, v.dirty, v.free, v.chains, own);
    }
  }

  ghost predicate IsDirChain(g: Geometry, chains: set<seq<nat>>, c: seq<nat>, e: DirEntry, own: seq<nat>) {
    own in chains && own != c && InRange(g, own) && |own| > 0 && own[0] == e.first
  }

  /** `write_file_impl` from the found parent on: an invalid name and a directory of that name
      are refused, a file of that name is replaced. On success the table is on disk, the entry's
      slots are in their place, and reading the new chain gives the content back. Whatever the
      outcome, the volume stays sound and every other file keeps its chain and its data. */
  method WriteFile(v: Volume, ghost c: seq<nat>, parent: nat, name: seq<nat>, content: seq<Byte>, date: nat, time: nat)
    returns (r: Result<(), FatError>, ghost read: Result<seq<DirEntry>, FatError>, ghost found: Option<DirEntry>, ghost gone: seq<nat>)
    requires v.Valid() && c in v.chains && InRange(v.g, c) && parent == c[0] && date < 0x1_0000 && time < 0x1_0000
    requires Linked(v.g, v.disk, v.chains, c)
    modifies v
    ensures v.Valid() && ReadOf(v.g, old(v.disk), c, read) && found == FoundIn(read, name)
    ensures found.Some? ==> OwnChain(old(v.chains), c, found.value, gone)
    ensures r == Err(InvalidName) <==> !ValidName(name)
    ensures r == Err(NotDir) <==> ValidName(name) && found.Some? && found.value.isDir
    ensures r == Err(InvalidName) || r == Err(NotDir) ==> Same(old(v.disk), v.disk, old(v.chains), v.chains)
    ensures SameFiles(v.g, old(v.disk), v.disk, Rest(old(v.chains), found, gone) - {c}) && Rest(old(v.chains), found, gone) - {c} <= v.chains
    ensures r.Ok? ==> AllClean(v.dirty, |v.dirty|) && FileWritten(v.g, old(v.disk), v.disk, v.chains, c, found, name, content, date, time)
  {
    if !ValidName(name) {
      r, read, found, gone := Err(InvalidName), Err(Io), None, c;
    } else {
      var existing;
      existing, read, gone := FindOwned(v, c, parent, name);
      found := existing;
      r := ReplaceFile(v, c, parent, existing, gone, name, content, date, time);
    }
  }

  /** `remove_impl` from the found parent on: a missing name and a directory that lists anything
      are refused. On success exactly that entry is gone and its chain is free. */
  method RemoveEntry(v: Volume, ghost c: seq<nat>, parent: nat, name: seq<nat>)
    returns (r: Result<(), FatError>, ghost read: Result<seq<DirEntry>, FatError>, ghost found: Option<DirEntry>, ghost gone: seq<nat>)
    requires v.Valid() && c in v.chains && InRange(v.g, c) && parent == c[0] && Linked(v.g, v.disk, v.chains, c)
    modifies v
    ensures v.Valid() && ReadOf(v.g, old(v.disk), c, read) && found == FoundIn(read, name)
    ensures r == Err(NotFound) <==> found.None?
    ensures found.Some? ==> OwnChain(old(v.chains), c, found.value, gone) && (found.value.isDir ==> IsDirChain(v.g, old(v.chains), c, found.value, gone))
    ensures found.Some? && found.value.isDir && Listing(v.g, old(v.disk), gone) != Ok([]) ==> r.Err? && Same(old(v.disk), v.disk, old(v.chains), v.chains)
    ensures r == Err(NotEmpty) ==> found.Some? && found.value.isDir && Listing(v.g, old(v.disk), gone).Ok? && Listing(v.g, old(v.disk), gone) != Ok([])
    ensures found.None? ==> Same(old(v.disk), v.disk, old(v.chains), v.chains)
    ensures SameFiles(v.g, old(v.disk), v.disk, old(v.chains) - {c}) && Rest(old(v.chains), found, gone) <= v.chains
    ensures r.Ok? ==> v.chains == Rest(old(v.chains), found, gone) && AllClean(v.dirty, |v.dirty|)
    ensures r.Ok? ==> Listing(v.g, v.disk, c).Ok? && OneRemoved(Listing(v.g, old(v.disk), c).value, Listing(v.g, v.disk, c).value, found.value)
  {
    var entry;
    entry, read, gone := FindOwned(v, c, parent, name);
    found := entry;
    if entry.None? {
      return Err(NotFound), read, found, gone;
    }
    if entry.value.isDir {
      NewInRange(v.g, v.disk, v.fat, v.dirty, v.free, v.chains, gone);
      var contents := ReadDir(v, gone, entry.value.first);
      if contents.Err? {
        return Err(contents.error), read, found, gone;
      }
      if contents.value != [] {
        return Err(NotEmpty), read, found, gone;
      }
    }
    r := DropEntry(v, c, entry.value, gone);
  }

  /** `make_dir_impl` from the found parent on: an invalid name and one that exists are refused.
      On success the table is on disk and the new, empty directory is entered. */
  method MakeDir(v: Volume, ghost c: seq<nat>, parent: nat, name: seq<nat>, date: nat, time: nat)
    returns (r: Result<(), FatError>, ghost read: Result<seq<DirEntry>, FatError>)
    requires v.Valid() && c in v.chains && InRange(v.g, c) && parent == c[0] && date < 0x1_0000 && time < 0x1_0000
    modifies v
    ensures v.Valid() && ReadOf(v.g, old(v.disk), c, read)
    ensures r == Err(InvalidName) <==> !ValidName(name)
    ensures r == Err(AlreadyExists) <==> ValidName(name) && FoundIn(read, name).Some?
    ensures r == Err(InvalidName) || r == Err(AlreadyExists) ==> Same(old(v.disk), v.disk, old(v.chains), v.chains)
    ensures SameFiles(v.g, old(v.disk), v.disk, old(v.chains) - {c}) && old(v.chains) - {c} <= v.chains
    ensures r.Ok? ==> AllClean(v.dirty, |v.dirty|) && DirMade(v.g, old(v.disk), v.disk, old(v.chains), v.chains, c, parent, name, date, time)
  {
    if !ValidName(name) {
      r, read := Err(InvalidName), Err(Io);
    } else {
      var existing;
      existing, read := FindDirEntry(v, c, parent, name);
      r := NewDir(v, c, parent, name, existing.Some?, date, time);
    }
  }

  /** `rename_impl` from the found parent on: an invalid or taken new name and a missing old one
      are refused, and nothing is done for the same name. On success the entry has the new name
      and its chain, size and kind; no content moves. */
  method Rename(v: Volume, ghost c: seq<nat>, parent: nat, oldName: seq<nat>, name: seq<nat>, date: nat, time: nat)
    returns (r: Result<(), FatError>, ghost read: Result<seq<DirEntry>, FatError>, ghost again: Result<seq<DirEntry>, FatError>)
    requires v.Valid() && c in v.chains && InRange(v.g, c) && parent == c[0] && date < 0x1_0000 && time < 0x1_0000
    modifies v
    ensures v.Valid() && ReadOf(v.g, old(v.disk), c, read) && ReadOf(v.g, old(v.disk), c, again)
    ensures r == Err(InvalidName) <==> !ValidName(name)
    ensures ValidName(name) && name == oldName ==> r == Ok(())
    ensures r == Err(NotFound) <==> ValidName(name) && name != oldName && FoundIn(read, oldName).None?
    ensures r == Err(AlreadyExists) <==> ValidName(name) && name != oldName && FoundIn(read, oldName).Some? && FoundIn(again, name).Some?
    ensures name == oldName || r in {Err(InvalidName), Err(NotFound), Err(AlreadyExists)} ==> Same(old(v.disk), v.disk, old(v.chains), v.chains)
    ensures SameFiles(v.g, old(v.disk), v.disk, old(v.chains) - {c}) && old(v.chains) - {c} <= v.chains
    ensures r.Ok? && name != oldName ==>
              AllClean(v.dirty, |v.dirty|) && Renamed(v.g, old(v.disk), v.disk, old(v.chains), v.chains, c, FoundIn(read, oldName).value, name, date, time)
  {
    read, again := Err(Io), Err(Io);
    if !ValidName(name) {
      return Err(InvalidName), read, again;
    }
    if name == oldName {
      return Ok(()), read, again;
    }
    var entry;
    entry, read := FindDirEntry(v, c, parent, oldName);
    if entry.None? {
      return Err(NotFound), read, again;
    }
    var taken;
    taken, again := FindDirEntry(v, c, parent, name);
    if taken.Some? {
      return Err(AlreadyExists), read, again;
    }
    r := MoveEntry(v, c, parent, entry.value, name, date, time);
  }

  // ---- the listing afterwards -------------------------------------------------------------------------------

  /** What any of the three operations does to the listing of the directory, when the free
      run was in the first sector of its cluster: every entry but the one removed is still
      listed, and the new one is inserted. */
  lemma EntriesKept(g: Geometry, disk: Disk, mid: Disk, disk2: Disk, c: seq<nat>, c2: seq<nat>, existing: Option<DirEntry>, at: Place, name: seq<nat>, m: Meta, k: nat)
    returns (n: nat)
    requires Good(g) && InRange(g, c) && InRange(g, c2) && NoDup(c2) && |c| <= |c2| <= CHAIN_GUARD + 1 && ValidName(name) && MetaOk(m) && k == |SlotsFor(name, m)|
    requires ListsBut(g, disk, mid, c, existing) && PutAs(g, mid, disk2, c, c2, at, name, m) && at.s == 0
    ensures Listing(g, disk, c).Ok? && Listing(g, mid, c).Ok? && Listing(g, disk2, c2).Ok?
    ensures forall e :: e in Listing(g, disk, c).value && existing != Some(e) ==> e in Listing(g, disk2, c2).value
    ensures var ss := DirSlots(g, at.grown, c2);
            && n + k <= |ss| && ss[n].cluster == c2[at.p] && ss[n].offset == 32 * at.i
            && IsInserted(ss, n, k, Listing(g, mid, c).value, Listing(g, disk2, c2).value, name, m, c2[at.p], 32 * at.i)
  {
    ListingIsScanned(g, disk, c);
    ListingIsScanned(g, mid, c);
    ListingIsScanned(g, disk2, c2);
    n := PutListing(g, mid, at.grown, disk2, c, c2, at.p, at.i, name, m, k);
    PlacedOk(name, m, c2[at.p], 32 * at.i);
    forall e | e in Listing(g, disk, c).value && existing != Some(e) ensures e in Listing(g, disk2, c2).value {
      StillListed(Listing(g, disk, c).value, Listing(g, mid, c).value, existing, e);
    }
  }

  lemma StillListed(was: seq<DirEntry>, now: seq<DirEntry>, existing: Option<DirEntry>, e: DirEntry)
    requires if existing.None? then now == was else OneRemoved(was, now, existing.value)
    requires e in was && existing != Some(e)
    ensures e in now
  {
  }

  /** Entered under a name that no remaining entry matches, in the first sector of a cluster, it is
      what a later lookup of that name finds, if and only if no end mark stands before its place. */
  lemma EnteredIsFound(g: Geometry, disk: Disk, mid: Disk, disk2: Disk, c: seq<nat>, c2: seq<nat>, existing: Option<DirEntry>, at: Place, name: seq<nat>, m: Meta, k: nat)
    returns (n: nat)
    requires Good(g) && InRange(g, c) && InRange(g, c2) && NoDup(c2) && |c| <= |c2| <= CHAIN_GUARD + 1 && ValidName(name) && MetaOk(m) && k == |SlotsFor(name, m)|
    requires ListsBut(g, disk, mid, c, existing) && PutAs(g, mid, disk2, c, c2, at, name, m) && at.s == 0
    requires Ascii(name) && (Listing(g, mid, c).Ok? ==> NoMatch(Listing(g, mid, c).value, name))
    ensures var ss := DirSlots(g, at.grown, c2);
            && n + k <= |ss| && ss[n].cluster == c2[at.p] && ss[n].offset == 32 * at.i
            && (|name| % 13 != 0 || Run(START, ss[..n]).parts == [] ==>
                FoundIn(Listing(g, disk2, c2), name) == if Run(START, ss[..n]).ended then None else Some(EntryFor(name, name, m, c2[at.p], 32 * at.i)))
  {
    n := EntriesKept(g, disk, mid, disk2, c, c2, existing, at, name, m, k);
    var ss := DirSlots(g, at.grown, c2);
    if |name| % 13 != 0 || Run(START, ss[..n]).parts == [] {
      EnteredFound(ss, n, k, Listing(g, mid, c).value, Listing(g, disk2, c2).value, name, m, c2[at.p], 32 * at.i);
    }
  }
}
