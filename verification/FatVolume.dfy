/** A mounted FAT32 volume (src/fat.rs:74-153, 228-343, 389-423, 534-554): the disk
    as numbered 512-byte sectors, the cached table with its dirty bits, and the
    operations that change them. A sector write may fail at any time. */
module FatVolume {
  import opened Wrappers
  import opened Bytes
  import opened Fat

  datatype FatError = Io | Corrupt | OutOfSpace | NotDir | NotFound | AlreadyExists | InvalidVolume | InvalidName | NotEmpty

  datatype Geometry = Geometry(spc: nat, reserved: nat, fatSize: nat, firstData: nat)

  const WRAP: nat := 0x1_0000_0000

  /** At least one table copy before the data area, and no 32-bit wrap-around in any
      sector number. */
  ghost predicate Good(g: Geometry) {
    && g.spc > 0 && g.fatSize > 0 && g.fatSize * 128 <= EOF_MARK
    && g.reserved + g.fatSize <= g.firstData && g.firstData + (g.fatSize * 128 - 2) * g.spc <= WRAP
  }

  // ---- the boot sector -----------------------------------------------------------------------

  /** The little-endian number of `n` bytes at `off`. */
  function Field(sector: seq<Byte>, off: nat, n: nat): nat
    requires off + n <= |sector|
  {
    FromLe(sector[off..off + n])
  }

  predicate PowerOfTwo(n: nat) { n in {1, 2, 4, 8, 16, 32, 64, 128} }

  /** What `open` demands of the boot sector. */
  predicate BootOk(sector: seq<Byte>)
    requires |sector| == 512
  {
    && Field(sector, 0x0B, 2) == 512 && PowerOfTwo(sector[0x0D]) && sector[0x1FE] == 0x55 && sector[0x1FF] == 0xAA
    && Field(sector, 0x24, 4) != 0 && Field(sector, 0x2C, 4) >= 2 && Field(sector, 0x20, 4) != 0
  }

  /** The geometry it describes; the first data sector is computed in 32 bits. */
  function BootGeometry(sector: seq<Byte>): Geometry
    requires |sector| == 512
  {
    var spc: nat, copies: nat := sector[0x0D], sector[0x10];
    Geometry(spc, Field(sector, 0x0E, 2), Field(sector, 0x24, 4), (Field(sector, 0x0E, 2) + copies * Field(sector, 0x24, 4)) % WRAP)
  }

  /** An accepted boot sector whose first data sector does not wrap describes a good
      volume exactly when it has a table copy, no more entries than cluster numbers, and
      every cluster's sectors below 2^32. */
  lemma BootIsGood(sector: seq<Byte>)
    requires |sector| == 512 && BootOk(sector)
    ensures var copies: nat, reserved, size, spc: nat := sector[0x10], Field(sector, 0x0E, 2), Field(sector, 0x24, 4), sector[0x0D];
            reserved + copies * size < WRAP ==>
              (Good(BootGeometry(sector)) <==>
               copies >= 1 && size * 128 <= EOF_MARK && reserved + copies * size + (size * 128 - 2) * spc <= WRAP)
  {
    var copies: nat, size := sector[0x10], Field(sector, 0x24, 4);
    if copies >= 1 {
      MulStep(0, copies, size);
    }
  }

  /** The checks at the start of `open`. */
  method ReadBoot(sector: seq<Byte>) returns (r: Option<Geometry>)
    requires |sector| == 512
    ensures r == if BootOk(sector) then Some(BootGeometry(sector)) else None
  {
    var bytes, spc: nat := Field(sector, 0x0B, 2), sector[0x0D];
    var reserved, copies: nat := Field(sector, 0x0E, 2), sector[0x10];
    var total, size, root := Field(sector, 0x20, 4), Field(sector, 0x24, 4), Field(sector, 0x2C, 4);
    if bytes != 512 || spc == 0 || !PowerOfTwo(spc) || sector[0x1FE] != 0x55 || sector[0x1FF] != 0xAA || size == 0 || root < 2 || total == 0 {
      return None;
    }
    r := Some(Geometry(spc, reserved, size, (reserved + copies * size) % WRAP));
  }

  /** One sector read, which may fail at any time. */
  method ReadDevice(disk: Disk, lba: nat) returns (r: Result<seq<Byte>, FatError>)
    ensures r == Ok(Sector(disk, lba)) || r == Err(Io)
  {
    if * {
      return Err(Io);
    }
    r := Ok(Sector(disk, lba));
  }

  /** `cluster_to_sector`, in 32-bit arithmetic. */
  function ToSector(g: Geometry, c: nat): nat
    requires c >= 2
  {
    (g.firstData + (c - 2) * g.spc) % WRAP
  }

  /** The same without wrap-around. */
  function Base(g: Geometry, c: nat): nat
    requires c >= 2
  {
    g.firstData + (c - 2) * g.spc
  }

  lemma MulStep(a: nat, b: nat, k: nat)
    requires a < b
    ensures a * k + k <= b * k
  {
    assert b * k == a * k + (b - a) * k;
    assert (b - a) * k == k + (b - a - 1) * k;
  }

  lemma SectorExact(g: Geometry, c: nat)
    requires Good(g) && 2 <= c < g.fatSize * 128
    ensures ToSector(g, c) == Base(g, c) && Base(g, c) + g.spc <= WRAP
  {
    MulStep(c - 2, g.fatSize * 128 - 2, g.spc);
  }

  /** Distinct clusters occupy disjoint sectors. */
  lemma SectorsApart(g: Geometry, c: nat, d: nat)
    requires Good(g) && 2 <= c < d < g.fatSize * 128
    ensures Base(g, c) + g.spc <= Base(g, d)
  {
    MulStep(c - 2, d - 2, g.spc);
  }

  ghost function From(lba: nat, n: nat): seq<nat> { seq(n, i requires 0 <= i < n => lba + i) }

  ghost predicate InRange(g: Geometry, chain: seq<nat>) { forall i :: 0 <= i < |chain| ==> 2 <= chain[i] < g.fatSize * 128 }

  /** The sectors of a chain's clusters, in order. */
  ghost function Lbas(g: Geometry, chain: seq<nat>): seq<nat>
    requires InRange(g, chain)
  {
    if chain == [] then [] else From(Base(g, chain[0]), g.spc) + Lbas(g, chain[1..])
  }

  /** Sector `lba` belongs to cluster `c`. */
  ghost predicate Holds(g: Geometry, c: nat, lba: nat) { c >= 2 && Base(g, c) <= lba < Base(g, c) + g.spc }

  lemma {:induction false} LbaOf(g: Geometry, chain: seq<nat>, lba: nat)
    requires InRange(g, chain) && lba in Lbas(g, chain)
    ensures exists c :: c in chain && Holds(g, c, lba)
  {
    if lba in From(Base(g, chain[0]), g.spc) {
      assert chain[0] in chain && Holds(g, chain[0], lba);
    } else {
      LbaOf(g, chain[1..], lba);
      var c :| c in chain[1..] && Holds(g, c, lba);
      assert c in chain;
    }
  }

  lemma HoldsOnce(g: Geometry, c: nat, d: nat, lba: nat)
    requires Good(g) && c < g.fatSize * 128 && d < g.fatSize * 128 && c != d && Holds(g, c, lba)
    ensures !Holds(g, d, lba)
  {
    if d >= 2 {
      if c < d {
        SectorsApart(g, c, d);
      } else {
        SectorsApart(g, d, c);
      }
    }
  }

  /** Chains without a common cluster have no common sector. */
  lemma LbasApart(g: Geometry, c: seq<nat>, d: seq<nat>)
    requires Good(g) && InRange(g, c) && InRange(g, d) && Apart(c, d)
    ensures Apart(Lbas(g, c), Lbas(g, d))
  {
    forall lba | lba in Lbas(g, c) && lba in Lbas(g, d) ensures false {
      LbaOf(g, c, lba);
      LbaOf(g, d, lba);
      var x :| x in c && Holds(g, x, lba);
      var y :| y in d && Holds(g, y, lba);
      HoldsOnce(g, x, y, lba);
    }
  }

  lemma LbasOne(g: Geometry, c: nat)
    requires 2 <= c < g.fatSize * 128
    ensures InRange(g, [c]) && Lbas(g, [c]) == From(Base(g, c), g.spc)
  {
    assert [c][1..] == [];
  }

  lemma {:induction false} LbasNoDup(g: Geometry, chain: seq<nat>)
    requires Good(g) && InRange(g, chain) && NoDup(chain)
    ensures NoDup(Lbas(g, chain))
  {
    if chain != [] {
      LbasNoDup(g, chain[1..]);
      LbasOne(g, chain[0]);
      LbasApart(g, [chain[0]], chain[1..]);
      NoDupConcat(From(Base(g, chain[0]), g.spc), Lbas(g, chain[1..]));
    }
  }

  /** Every data sector lies behind the table. */
  lemma LbasBehind(g: Geometry, chain: seq<nat>, lba: nat)
    requires InRange(g, chain) && lba in Lbas(g, chain)
    ensures lba >= g.firstData
  {
    LbaOf(g, chain, lba);
    var c :| c in chain && Holds(g, c, lba);
    MulLe(0, c - 2, g.spc);
  }

  lemma {:induction false} LbasLen(g: Geometry, chain: seq<nat>)
    requires InRange(g, chain)
    ensures |Lbas(g, chain)| == |chain| * g.spc
  {
    if chain != [] {
      LbasLen(g, chain[1..]);
      assert |chain| * g.spc == g.spc + (|chain| - 1) * g.spc;
    }
  }

  lemma {:induction false} LbasConcat(g: Geometry, c: seq<nat>, d: seq<nat>)
    requires InRange(g, c) && InRange(g, d)
    ensures InRange(g, c + d) && Lbas(g, c + d) == Lbas(g, c) + Lbas(g, d)
  {
    if c == [] {
      assert c + d == d;
    } else {
      LbasConcat(g, c[1..], d);
      assert (c + d)[1..] == c[1..] + d;
    }
  }

  /** Data writes leave the table on disk alone. */
  lemma DataKeepsCoherent(g: Geometry, disk: Disk, disk2: Disk, fat: seq<nat>, dirty: seq<bool>)
    requires Good(g) && Coherent(disk, g.reserved, fat, dirty) && |dirty| == g.fatSize
    requires forall lba: nat :: lba < g.firstData ==> Sector(disk2, lba) == Sector(disk, lba)
    ensures Coherent(disk2, g.reserved, fat, dirty)
  {
    forall i | 0 <= i < |dirty| && !dirty[i] ensures Sector(disk2, g.reserved + i) == TableSector(fat, i) {
      assert Sector(disk2, g.reserved + i) == Sector(disk, g.reserved + i);
    }
  }

  function SaturatingDec(n: nat): nat { if n == 0 then 0 else n - 1 }

  ghost function Singles(cs: seq<nat>): set<seq<nat>> { set x | x in cs :: [x] }

  /** The volume's fields fit together: the table is well formed, the free count is
      right, and what is not dirty is on disk. */
  ghost predicate Sound(g: Geometry, disk: Disk, fat: seq<nat>, dirty: seq<bool>, free: nat, chains: set<seq<nat>>) {
    && Good(g) && |fat| == g.fatSize * 128 && |dirty| == g.fatSize
    && (forall i :: 0 <= i < |fat| ==> fat[i] < WRAP)
    && Formed(fat, chains) && free == CountFree(fat, |fat|)
    && Coherent(disk, g.reserved, fat, dirty)
  }

  lemma AllocStep(g: Geometry, disk: Disk, fat: seq<nat>, dirty: seq<bool>, free: nat, chains: set<seq<nat>>, c: nat)
    requires Sound(g, disk, fat, dirty, free, chains) && 2 <= c < |fat| && Next(fat, c) == 0
    ensures free > 0 && !InUse(chains, c)
    ensures Sound(g, disk, fat[c := EOF_MARK], dirty[c / 128 := true], free - 1, chains + {[c]})
  {
    AllocForms(fat, chains, c);
    CountUpdate(fat, c, EOF_MARK, |fat|);
    SetCoherent(disk, g.reserved, fat, dirty, c, EOF_MARK);
  }

  lemma ChainBounds(fat: seq<nat>, c: seq<nat>)
    requires IsChain(fat, c)
    ensures forall i :: 0 <= i < |c| ==> 2 <= c[i] < |fat|
  {
    forall i | 0 <= i < |c| ensures 2 <= c[i] < |fat| {
      ChainAt(fat, c, i);
    }
  }

  ghost function Rest(c: seq<nat>): set<seq<nat>> { if |c| > 1 then {c[1..]} else {} }

  lemma FreeStep(g: Geometry, disk: Disk, fat: seq<nat>, dirty: seq<bool>, free: nat, chains: set<seq<nat>>, c: seq<nat>)
    requires Sound(g, disk, fat, dirty, free, chains) && c in chains
    ensures 2 <= c[0] < |fat| && Next(fat, c[0]) == if |c| > 1 then c[1] else EOF_MARK
    ensures Sound(g, disk, fat[c[0] := 0], dirty[c[0] / 128 := true], free + 1, chains - {c} + Rest(c))
  {
    ChainAt(fat, c, 0);
    LinkedNonZero(fat, c, c[0]);
    DropHeadForms(fat, chains, c);
    CountUpdate(fat, c[0], 0, |fat|);
    SetCoherent(disk, g.reserved, fat, dirty, c[0], 0);
  }

  /** What is left of `chains` once the first `k` clusters of `c` are freed. */
  ghost function Left(chains: set<seq<nat>>, c: seq<nat>, k: nat): set<seq<nat>> {
    chains - {c} + (if k < |c| then {c[k..]} else {})
  }

  lemma LeftStep(fat: seq<nat>, chains: set<seq<nat>>, c: seq<nat>, k: nat)
    requires Formed(fat, chains) && c in chains && k < |c|
    ensures c[k..] in Left(chains, c, k) && Left(chains, c, k) - {c[k..]} + Rest(c[k..]) == Left(chains, c, k + 1)
    ensures |c[k..]| > 1 <==> k + 1 < |c|
    ensures k + 1 < |c| ==> c[k..][1] == c[k + 1]
    ensures c[k..][0] == c[k]
  {
    assert c[k] in c && c[k] in c[k..];
    assert c[k..] !in chains - {c};
    if k + 1 < |c| {
      assert c[k..][1..] == c[k + 1..];
    }
  }

  /** Entries at both ends of a join, and the free count across it. */
  lemma JoinCounts(fat: seq<nat>, c: seq<nat>, d: seq<nat>, last: nat, head: nat)
    requires IsChain(fat, c) && IsChain(fat, d) && |fat| <= EOF_MARK && last == c[|c| - 1] && head == d[0]
    ensures 2 <= last < |fat| && 2 <= head < |fat|
    ensures CountFree(fat[last := head], |fat|) == CountFree(fat, |fat|)
  {
    ChainAt(fat, c, |c| - 1);
    LinkedNonZero(fat, c, last);
    CountUpdate(fat, last, head, |fat|);
    SmallMod(head);
  }

  lemma SmallMod(x: nat)
    requires x < EOF_MARK
    ensures x % 0x1000_0000 == x
  {
  }

  /** Joining two chains by one table write. */
  lemma JoinStep(g: Geometry, disk: Disk, fat: seq<nat>, dirty: seq<bool>, free: nat, chains: set<seq<nat>>, c: seq<nat>, d: seq<nat>)
    requires Sound(g, disk, fat, dirty, free, chains) && c in chains && d in chains && c != d
    ensures 2 <= c[|c| - 1] < |fat| && 2 <= d[0] < |fat|
    ensures Sound(g, disk, fat[c[|c| - 1] := d[0]], dirty[c[|c| - 1] / 128 := true], free, chains - {c, d} + {c + d})
  {
    JoinCounts(fat, c, d, c[|c| - 1], d[0]);
    JoinForms(fat, chains, c, d);
    SetCoherent(disk, g.reserved, fat, dirty, c[|c| - 1], d[0]);
  }

  /** The chains after the first `n` of `cs` were linked up: those are one chain, the others
      still chains of one. */
  ghost function LinkedUp(base: set<seq<nat>>, cs: seq<nat>, n: nat): set<seq<nat>>
    requires n <= |cs|
  {
    base + {cs[..n]} + Singles(cs[n..])
  }

  /** Every cluster of `cs` is outside `base`. */
  ghost predicate New(base: set<seq<nat>>, cs: seq<nat>) { NoDup(cs) && forall x :: x in cs ==> !InUse(base, x) }

  lemma LinkedUpStep(base: set<seq<nat>>, cs: seq<nat>, n: nat)
    requires New(base, cs) && 0 < n < |cs|
    ensures cs[..n] in LinkedUp(base, cs, n) && [cs[n]] in LinkedUp(base, cs, n) && cs[..n] != [cs[n]]
    ensures cs[..n] + [cs[n]] == cs[..n + 1]
    ensures LinkedUp(base, cs, n) - {cs[..n], [cs[n]]} + {cs[..n + 1]} == LinkedUp(base, cs, n + 1)
  {
    var x := cs[n];
    assert x in cs && cs[0] in cs;
    assert cs[n..] == [x] + cs[n + 1..];
    assert Singles(cs[n..]) == {[x]} + Singles(cs[n + 1..]) by {
      assert forall y :: y in cs[n..] <==> y == x || y in cs[n + 1..];
    }
    assert x !in cs[n + 1..];
    assert x !in cs[..n];
    assert cs[..n] !in base by { assert cs[..n][0] == cs[0]; assert cs[0] in cs[..n]; }
    assert [x] !in base by { assert x in [x]; }
    assert cs[0] !in cs[n + 1..];
    assert cs[..n] !in Singles(cs[n + 1..]);
    assert [x] !in Singles(cs[n + 1..]);
  }

  lemma LinkedUpNext(base: set<seq<nat>>, cs: seq<nat>, chains: set<seq<nat>>, n: nat, n2: nat)
    returns (done: seq<nat>, tail: seq<nat>, after: set<seq<nat>>)
    requires New(base, cs) && 0 < n < |cs| && n2 == n + 1 && chains == LinkedUp(base, cs, n)
    ensures done in chains && tail in chains && done != tail && |done| > 0 && done[|done| - 1] == cs[n - 1] && cs[n - 1] in cs && tail == [cs[n]]
    ensures chains - {done, tail} + {done + tail} == after == LinkedUp(base, cs, n2)
  {
    done, tail, after := cs[..n], [cs[n]], LinkedUp(base, cs, n2);
    LinkedUpStep(base, cs, n);
  }

  /** Taking one more free cluster. */
  lemma TakeMore(base: set<seq<nat>>, chains: set<seq<nat>>, taken: seq<nat>, c: nat)
    requires chains == base + Singles(taken) && New(base, taken) && !InUse(chains, c)
    ensures New(base, taken + [c]) && chains + {[c]} == base + Singles(taken + [c])
  {
    assert Singles(taken + [c]) == Singles(taken) + {[c]};
    forall x | x in taken ensures x != c {
      assert [x] in chains && x in [x];
    }
    assert forall d :: d in base ==> d in chains;
  }

  /** Entries of the clusters in `base` are as they were. */
  ghost predicate SameEntries(fat: seq<nat>, fat2: seq<nat>, base: set<seq<nat>>) {
    |fat2| == |fat| && forall x :: 0 <= x < |fat| && InUse(base, x) ==> fat2[x] == fat[x]
  }

  lemma MarkForms(fat: seq<nat>, fat2: seq<nat>, chains: set<seq<nat>>, c: seq<nat>, last: nat)
    requires Formed(fat, chains) && c in chains && last == c[|c| - 1] && last < |fat| && Next(fat, last) == EOF_MARK
    requires fat2 == fat[last := EOF_MARK]
    ensures Formed(fat2, chains)
  {
    forall x | 0 <= x < |fat| ensures Next(fat2, x) == Next(fat, x) {
    }
    forall d | d in chains ensures IsChain(fat2, d) {
      ChainFrame(fat, fat2, d);
    }
  }

  /** Rewriting the end-of-chain mark of a chain. */
  lemma MarkStep(g: Geometry, disk: Disk, fat: seq<nat>, dirty: seq<bool>, free: nat, chains: set<seq<nat>>, c: seq<nat>, last: nat)
    requires Sound(g, disk, fat, dirty, free, chains) && c in chains && last == c[|c| - 1]
    ensures 2 <= last < |fat| && Sound(g, disk, fat[last := EOF_MARK], dirty[last / 128 := true], free, chains)
  {
    ChainAt(fat, c, |c| - 1);
    MarkForms(fat, fat[last := EOF_MARK], chains, c, last);
    CountUpdate(fat, last, EOF_MARK, |fat|);
    SetCoherent(disk, g.reserved, fat, dirty, last, EOF_MARK);
  }

  lemma LinkedUpEnds(base: set<seq<nat>>, cs: seq<nat>)
    requires |cs| > 0
    ensures LinkedUp(base, cs, 1) == base + Singles(cs) && LinkedUp(base, cs, |cs|) == base + {cs}
  {
    assert cs[..1] == [cs[0]] && cs[..|cs|] == cs && cs[|cs|..] == [];
    assert forall y :: y in cs <==> y == cs[0] || y in cs[1..];
  }

  /** Outside `lbas` the disk is unchanged. */
  ghost predicate SameBut(disk: Disk, disk2: Disk, lbas: seq<nat>) {
    forall x: nat :: x !in lbas ==> Sector(disk2, x) == Sector(disk, x)
  }

  /** Writes into a chain's sectors keep the volume sound and every other chain's data. */
  lemma DataStep(g: Geometry, disk: Disk, disk2: Disk, fat: seq<nat>, dirty: seq<bool>, free: nat, chains: set<seq<nat>>, c: seq<nat>)
    requires Sound(g, disk, fat, dirty, free, chains) && InRange(g, c) && SameBut(disk, disk2, Lbas(g, c))
    ensures Sound(g, disk2, fat, dirty, free, chains)
  {
    forall lba: nat | lba < g.firstData ensures Sector(disk2, lba) == Sector(disk, lba) {
      if lba in Lbas(g, c) {
        LbasBehind(g, c, lba);
      }
    }
    DataKeepsCoherent(g, disk, disk2, fat, dirty);
  }

  lemma {:induction false} LbasWithin(g: Geometry, cs: seq<nat>, i: nat)
    requires InRange(g, cs) && i < |cs|
    ensures forall x :: x in From(Base(g, cs[i]), g.spc) ==> x in Lbas(g, cs)
  {
    if i > 0 {
      LbasWithin(g, cs[1..], i - 1);
    }
  }

  lemma OtherData(g: Geometry, disk: Disk, disk2: Disk, c: seq<nat>, d: seq<nat>, n: nat)
    requires Good(g) && InRange(g, c) && InRange(g, d) && Apart(c, d) && SameBut(disk, disk2, Lbas(g, c))
    ensures Get(disk2, Lbas(g, d), n) == Get(disk, Lbas(g, d), n)
  {
    LbasApart(g, c, d);
    GetFrame(disk, disk2, Lbas(g, d), n);
  }

  /** After the first `s` sectors, `w` bytes of `content` are out; finishing gives `goal`. */
  ghost predicate Writing(disk: Disk, lbas: seq<nat>, s: nat, content: seq<Byte>, w: nat, goal: Disk) {
    s <= |lbas| && w <= |content| && Put(disk, lbas[s..], content[w..]) == goal
  }

  lemma WritingStep(disk: Disk, lbas: seq<nat>, s: nat, s2: nat, content: seq<Byte>, w: nat, w2: nat, goal: Disk)
    requires Writing(disk, lbas, s, content, w, goal) && s2 == s + 1 <= |lbas| && w < |content| && w2 == w + Min(|content| - w, 512)
    ensures Writing(disk[lbas[s] := Pad(content[w..w2])], lbas, s2, content, w2, goal)
  {
    var rest := content[w..];
    assert rest[..w2 - w] == content[w..w2] && rest[w2 - w..] == content[w2..];
    assert lbas[s..][1..] == lbas[s2..];
  }

  /** After the first `s` sectors `data` was read and `left` bytes are missing. */
  ghost predicate Reading(disk: Disk, lbas: seq<nat>, s: nat, left: nat, data: seq<Byte>, n: nat) {
    s <= |lbas| && data + Get(disk, lbas[s..], left) == Get(disk, lbas, n)
  }

  lemma ReadingStep(disk: Disk, lbas: seq<nat>, s: nat, s2: nat, left: nat, take: nat, data: seq<Byte>, n: nat)
    requires Reading(disk, lbas, s, left, data, n) && s2 == s + 1 <= |lbas| && left > 0 && take == Min(left, 512)
    ensures Reading(disk, lbas, s2, left - take, data + Sector(disk, lbas[s])[..take], n)
  {
    assert lbas[s..][1..] == lbas[s2..];
    Assoc(data, Sector(disk, lbas[s])[..take], Get(disk, lbas[s2..], left - take));
  }

  lemma ReadingDone(disk: Disk, lbas: seq<nat>, s: nat, left: nat, data: seq<Byte>, n: nat)
    requires Reading(disk, lbas, s, left, data, n) && (left == 0 || s == |lbas|)
    ensures data == Get(disk, lbas, n)
  {
    assert Get(disk, lbas[s..], left) == [];
    assert data + [] == data;
  }

  lemma PutCluster(g: Geometry, disk: Disk, cs: seq<nat>, i: nat, i2: nat, content: seq<Byte>, w: nat, w2: nat)
    requires InRange(g, cs) && i < |cs| && i2 == i + 1 && w <= |content| && w2 == w + Min(|content| - w, 512 * g.spc)
    ensures Put(disk, Lbas(g, cs[i..]), content[w..])
            == Put(Put(disk, From(Base(g, cs[i]), g.spc), content[w..]), Lbas(g, cs[i2..]), content[w2..])
  {
    var all, first, rest := cs[i..], From(Base(g, cs[i]), g.spc), cs[i2..];
    assert all[0] == cs[i] && all[1..] == rest;
    PutConcat(disk, first, Lbas(g, rest), content[w..]);
    assert content[w..][w2 - w..] == content[w2..];
  }

  /** What `read_file_data` makes of `size` bytes of the chain `c` (empty for a first
      cluster below 2): the loop guard lets it visit CHAIN_GUARD + 1 clusters. */
  ghost function FileData(g: Geometry, disk: Disk, c: seq<nat>, size: nat): Result<seq<Byte>, FatError>
    requires InRange(g, c)
  {
    if size <= 512 * (Min(|c|, CHAIN_GUARD + 1) * g.spc) then Ok(Get(disk, Lbas(g, c), size)) else Err(Corrupt)
  }

  /** After `k` clusters `data` was read and `left` bytes are missing. */
  ghost predicate Following(g: Geometry, disk: Disk, c: seq<nat>, k: nat, left: nat, data: seq<Byte>, size: nat)
    requires InRange(g, c)
  {
    && k <= |c| && left <= size && size - left == Min(size, 512 * (k * g.spc))
    && data + Get(disk, Lbas(g, c[k..]), left) == Get(disk, Lbas(g, c), size)
  }

  lemma FollowingStep(g: Geometry, disk: Disk, c: seq<nat>, k: nat, k2: nat, left: nat, left2: nat, data: seq<Byte>, part: seq<Byte>, size: nat)
    requires InRange(g, c) && Following(g, disk, c, k, left, data, size) && k2 == k + 1 <= |c|
    requires part == Get(disk, From(Base(g, c[k]), g.spc), left) && left2 == left - Min(left, 512 * g.spc)
    ensures |part| == left - left2 && Following(g, disk, c, k2, left2, data + part, size)
  {
    GetLen(disk, From(Base(g, c[k]), g.spc), left);
    assert c[k..][0] == c[k] && c[k..][1..] == c[k2..];
    GetConcat(disk, From(Base(g, c[k]), g.spc), Lbas(g, c[k2..]), left);
    Assoc(data, part, Get(disk, Lbas(g, c[k2..]), left2));
    MulSucc(k, k2, g.spc);
  }

  lemma MulSucc(k: nat, k2: nat, m: nat)
    requires k2 == k + 1
    ensures k2 * m == k * m + m
  {
  }

  lemma MulLe(a: nat, b: nat, m: nat)
    requires a <= b
    ensures a * m <= b * m
  {
  }

  lemma FollowingDone(g: Geometry, disk: Disk, c: seq<nat>, k: nat, data: seq<Byte>, size: nat)
    requires InRange(g, c) && Following(g, disk, c, k, 0, data, size) && k <= CHAIN_GUARD + 1
    ensures FileData(g, disk, c, size) == Ok(data)
  {
    MulLe(k, Min(|c|, CHAIN_GUARD + 1), g.spc);
    assert data + [] == data;
  }

  lemma FollowingCut(g: Geometry, disk: Disk, c: seq<nat>, k: nat, left: nat, data: seq<Byte>, size: nat)
    requires InRange(g, c) && Following(g, disk, c, k, left, data, size) && left > 0 && k == Min(|c|, CHAIN_GUARD + 1)
    ensures FileData(g, disk, c, size) == Err(Corrupt)
  {
  }

  /** `div_ceil`. */
  function CeilDiv(n: nat, k: nat): nat
    requires k > 0
  {
    (n + k - 1) / k
  }

  /** `k` clusters are just enough for `n` bytes. */
  ghost predicate Tight(spc: nat, n: nat, k: nat) {
    n <= 512 * (k * spc) && (n > 0 ==> k > 0 && n > 512 * ((k - 1) * spc))
  }

  lemma CeilDivIs(n: nat, spc: nat, needed: nat)
    requires spc > 0 && needed == CeilDiv(n, 512 * spc)
    ensures Tight(spc, n, needed) && (n == 0 ==> needed == 0)
  {
    var k := 512 * spc;
    var q, r := (n + k - 1) / k, (n + k - 1) % k;
    assert n + k - 1 == k * q + r && 0 <= r < k;
    assert k * q == 512 * (needed * spc);
    if n > 0 {
      assert (needed - 1) * spc == needed * spc - spc;
    }
  }

  /** What a stored file reads back as. */
  lemma StoredReads(g: Geometry, disk0: Disk, disk: Disk, cs: seq<nat>, content: seq<Byte>)
    requires Good(g) && InRange(g, cs) && NoDup(cs) && content != [] && Tight(g.spc, |content|, |cs|)
    requires disk == Put(disk0, Lbas(g, cs), content)
    ensures FileData(g, disk, cs, |content|) == if |cs| <= CHAIN_GUARD + 1 then Ok(content) else Err(Corrupt)
  {
    LbasLen(g, cs);
    LbasNoDup(g, cs);
    GetPut(disk0, Lbas(g, cs), content);
    if |cs| > CHAIN_GUARD + 1 {
      MulLe(CHAIN_GUARD + 1, |cs| - 1, g.spc);
    }
  }

  /** Every file on one of `chains` reads as before. */
  ghost predicate SameFiles(g: Geometry, disk: Disk, disk2: Disk, chains: set<seq<nat>>) {
    forall c, n: nat :: c in chains && InRange(g, c) ==> FileData(g, disk2, c, n) == FileData(g, disk, c, n)
  }

  lemma NewKeepsFiles(g: Geometry, disk: Disk, disk2: Disk, chains: set<seq<nat>>, cs: seq<nat>)
    requires Good(g) && InRange(g, cs) && New(chains, cs) && SameBut(disk, disk2, Lbas(g, cs))
    ensures SameFiles(g, disk, disk2, chains)
  {
    forall c, n: nat | c in chains && InRange(g, c) ensures FileData(g, disk2, c, n) == FileData(g, disk, c, n) {
      assert Apart(cs, c);
      OtherData(g, disk, disk2, cs, c, n);
    }
  }

  lemma NewInRange(g: Geometry, disk: Disk, fat: seq<nat>, dirty: seq<bool>, free: nat, chains: set<seq<nat>>, c: seq<nat>)
    requires Sound(g, disk, fat, dirty, free, chains) && c in chains
    ensures |c| > 0 && InRange(g, c) && NoDup(c) && IsChain(fat, c)
  {
    ChainBounds(fat, c);
  }

  function ZeroSector(): (r: seq<Byte>)
    ensures |r| == 512
  {
    seq(512, _ => 0)
  }

  /** Writing back table sector `i`, or failing to. */
  lemma FlushCoherent(disk: Disk, disk2: Disk, reserved: nat, fat: seq<nat>, dirty: seq<bool>, dirty2: seq<bool>, i: nat)
    requires Coherent(disk, reserved, fat, dirty) && i < |dirty| && dirty[i]
    requires forall x: nat :: x != reserved + i ==> Sector(disk2, x) == Sector(disk, x)
    requires dirty2 == dirty || (dirty2 == dirty[i := false] && Sector(disk2, reserved + i) == TableSector(fat, i))
    ensures Coherent(disk2, reserved, fat, dirty2)
  {
    forall j: nat | j < |dirty2| ensures !dirty2[j] ==> Sector(disk2, reserved + j) == TableSector(fat, j) {
      FlushAt(disk, disk2, reserved, fat, dirty, dirty2, i, j);
    }
  }

  lemma FlushAt(disk: Disk, disk2: Disk, reserved: nat, fat: seq<nat>, dirty: seq<bool>, dirty2: seq<bool>, i: nat, j: nat)
    requires Coherent(disk, reserved, fat, dirty) && i < |dirty| && dirty[i] && j < |dirty|
    requires forall x: nat :: x != reserved + i ==> Sector(disk2, x) == Sector(disk, x)
    requires dirty2 == dirty || (dirty2 == dirty[i := false] && Sector(disk2, reserved + i) == TableSector(fat, i))
    ensures !dirty2[j] ==> Sector(disk2, reserved + j) == TableSector(fat, j)
  {
    if j != i && !dirty[j] {
      assert Sector(disk, reserved + j) == TableSector(fat, j);
    }
  }

  /** Flushing one table sector. */
  lemma FlushStep(g: Geometry, disk: Disk, disk2: Disk, fat: seq<nat>, dirty: seq<bool>, dirty2: seq<bool>, free: nat, chains: set<seq<nat>>, i: nat)
    requires Sound(g, disk, fat, dirty, free, chains) && i < |dirty| && dirty[i]
    requires forall x: nat :: x != g.reserved + i ==> Sector(disk2, x) == Sector(disk, x)
    requires dirty2 == dirty || (dirty2 == dirty[i := false] && Sector(disk2, g.reserved + i) == TableSector(fat, i))
    ensures Sound(g, disk2, fat, dirty2, free, chains)
  {
    FlushCoherent(disk, disk2, g.reserved, fat, dirty, dirty2, i);
  }

  /** The data area is unchanged. */
  ghost predicate SameData(g: Geometry, disk: Disk, disk2: Disk) {
    forall x: nat :: x >= g.firstData ==> Sector(disk2, x) == Sector(disk, x)
  }

  lemma SameDataFiles(g: Geometry, disk: Disk, disk2: Disk, chains: set<seq<nat>>)
    requires SameData(g, disk, disk2)
    ensures SameFiles(g, disk, disk2, chains)
  {
    forall c, n: nat | c in chains && InRange(g, c) ensures FileData(g, disk2, c, n) == FileData(g, disk, c, n) {
      forall x | x in Lbas(g, c) ensures Sector(disk2, x) == Sector(disk, x) {
        LbasBehind(g, c, x);
      }
      GetFrame(disk, disk2, Lbas(g, c), n);
    }
  }

  ghost predicate AllClean(dirty: seq<bool>, n: nat)
    requires n <= |dirty|
  {
    forall i :: 0 <= i < n ==> !dirty[i]
  }

  /** Row `i` of `fat` holds the words of that table sector. */
  ghost predicate RowIs(disk: Disk, reserved: nat, fat: seq<nat>, i: nat) {
    i * 128 + 128 <= |fat| && WordsAre(Sector(disk, reserved + i), fat, i * 128)
  }

  ghost predicate WordsAre(sector: seq<Byte>, fat: seq<nat>, k: nat)
    requires |sector| == 512 && k + 128 <= |fat|
  {
    forall j: nat :: j < 128 ==> fat[k + j] == WordAt(sector, j)
  }

  /** The table as `open` reads it. */
  ghost predicate TableIs(disk: Disk, reserved: nat, fat: seq<nat>, sectors: nat) {
    forall i: nat :: i < sectors ==> RowIs(disk, reserved, fat, i)
  }

  /** Mounting again after a complete flush finds the same table. */
  lemma Remount(g: Geometry, disk: Disk, fat: seq<nat>, dirty: seq<bool>, free: nat, chains: set<seq<nat>>, read: seq<nat>)
    requires Sound(g, disk, fat, dirty, free, chains) && AllClean(dirty, |dirty|)
    requires |read| == |fat| && TableIs(disk, g.reserved, read, g.fatSize)
    ensures read == fat
  {
    forall k: nat | k < |fat| ensures read[k] == fat[k] {
      var i, j := k / 128, k % 128;
      RemountAt(g, disk, fat, dirty, read, i, j);
      assert i * 128 + j == k;
    }
  }

  lemma RemountAt(g: Geometry, disk: Disk, fat: seq<nat>, dirty: seq<bool>, read: seq<nat>, i: nat, j: nat)
    requires Coherent(disk, g.reserved, fat, dirty) && i < |dirty| && !dirty[i] && j < 128 && |fat| == |read|
    requires RowIs(disk, g.reserved, read, i) && fat[i * 128 + j] < WRAP
    ensures read[i * 128 + j] == fat[i * 128 + j]
  {
    TableRoundTrip(fat, i, j);
  }

  /** A table read from disk is coherent with it. */
  lemma ReadCoherent(disk: Disk, reserved: nat, fat: seq<nat>, dirty: seq<bool>)
    requires |fat| == |dirty| * 128 && TableIs(disk, reserved, fat, |dirty|)
    ensures Coherent(disk, reserved, fat, dirty) && forall k :: 0 <= k < |fat| ==> fat[k] < WRAP
  {
    forall i | 0 <= i < |dirty| ensures Sector(disk, reserved + i) == TableSector(fat, i) {
      ReadSectorBack(disk, reserved, fat, |dirty|, i);
    }
    forall k: nat | k < |fat| ensures fat[k] < WRAP {
      var i, j := k / 128, k % 128;
      var s := Sector(disk, reserved + i);
      BytesRoundTrip(s, j);
      assert RowIs(disk, reserved, fat, i);
      assert fat[i * 128 + j] == WordAt(s, j) && i * 128 + j == k;
    }
  }

  lemma ReadSectorBack(disk: Disk, reserved: nat, fat: seq<nat>, n: nat, i: nat)
    requires TableIs(disk, reserved, fat, n) && i < n
    ensures i * 128 + 128 <= |fat| && Sector(disk, reserved + i) == TableSector(fat, i)
  {
    assert RowIs(disk, reserved, fat, i);
    var s, u := Sector(disk, reserved + i), TableSector(fat, i);
    forall b: nat | b < 512 ensures s[b] == u[b] {
      var j, k := b / 4, b % 4;
      BytesRoundTrip(s, j);
      assert fat[i * 128 + j] == WordAt(s, j);
    }
  }

  /** A table just read is sound exactly when it is well formed and the geometry is good. */
  lemma ReadSound(g: Geometry, disk: Disk, fat: seq<nat>, dirty: seq<bool>, free: nat, chains: set<seq<nat>>)
    requires |fat| == g.fatSize * 128 && |dirty| == g.fatSize && free == CountFree(fat, |fat|)
    requires g.reserved + g.fatSize <= WRAP ==> TableIs(disk, g.reserved, fat, g.fatSize)
    ensures Sound(g, disk, fat, dirty, free, chains) <==> Good(g) && Formed(fat, chains)
  {
    if Good(g) {
      GoodFits(g);
      ReadCoherent(disk, g.reserved, fat, dirty);
    }
  }

  lemma GoodFits(g: Geometry)
    requires Good(g)
    ensures g.reserved + g.fatSize <= WRAP
  {
    MulLe(0, g.fatSize * 128 - 2, g.spc);
  }

  class Volume {
    const g: Geometry
    var disk: Disk
    var fat: seq<nat>
    var dirty: seq<bool>
    var free: nat
    ghost var chains: set<seq<nat>>

    ghost predicate Valid()
      reads this
    {
      Sound(g, disk, fat, dirty, free, chains)
    }

    /** A volume over the table that was read, with its free entries counted. */
    constructor Open(geometry: Geometry, image: Disk, table: seq<nat>, ghost layout: set<seq<nat>>)
      requires geometry.fatSize > 0 && |table| == geometry.fatSize * 128
      requires geometry.reserved + geometry.fatSize <= WRAP ==> TableIs(image, geometry.reserved, table, geometry.fatSize)
      ensures g == geometry && disk == image && fat == table && chains == layout && AllClean(dirty, |dirty|)
      ensures Valid() <==> Good(geometry) && Formed(fat, layout)
    {
      g, disk, fat, dirty, chains := geometry, image, table, seq(geometry.fatSize, _ => false), layout;
      free := 0;
      new;
      ScanFreeClusters();
      ReadSound(g, disk, fat, dirty, free, chains);
    }

    method ScanFreeClusters()
      requires |fat| >= 2
      modifies `free
      ensures free == CountFree(fat, |fat|)
    {
      var count, c := 0, 2;
      while c < |fat|
        invariant 2 <= c <= |fat| && count == CountFree(fat, c)
      {
        if Next(fat, c) == 0 {
          count := count + 1;
        }
        c := c + 1;
      }
      free := count;
    }

    /** Writes every dirty table sector back. Success leaves disk and cache equal; a
        failure leaves the unwritten sectors dirty. */
    method FlushFat() returns (r: Result<(), FatError>)
      requires Valid()
      modifies `disk, `dirty
      ensures Valid() && SameData(g, old(disk), disk)
      ensures r == Ok(()) || r == Err(Io)
      ensures r.Ok? ==> AllClean(dirty, |dirty|)
    {
      var i, ok := 0, true;
      while i < |dirty| && ok
        invariant 0 <= i <= |dirty| && Valid() && SameData(g, old(disk), disk)
        invariant ok ==> AllClean(dirty, i)
        decreases |dirty| - i
      {
        ok := FlushAt(i, old(disk));
        i := i + 1;
      }
      r := if ok then Ok(()) else Err(Io);
    }

    /** One sector of the table, if it is dirty. */
    method FlushAt(i: nat, ghost disk0: Disk) returns (ok: bool)
      requires Valid() && i < |dirty| && SameData(g, disk0, disk) && AllClean(dirty, i)
      modifies `disk, `dirty
      ensures Valid() && |dirty| == |old(dirty)| && SameData(g, disk0, disk)
      ensures ok ==> AllClean(dirty, i + 1)
    {
      ok := true;
      if dirty[i] {
        ok := FlushSector(i);
      }
    }

    method FlushSector(i: nat) returns (ok: bool)
      requires Valid() && i < |dirty| && dirty[i]
      modifies `disk, `dirty
      ensures Valid() && SameData(g, old(disk), disk)
      ensures dirty == if ok then old(dirty)[i := false] else old(dirty)
    {
      var sector := TableBytes(i);
      ok := WriteSector(g.reserved + i, sector);
      var after := if ok then dirty[i := false] else dirty;
      FlushStep(g, old(disk), disk, fat, dirty, after, free, chains, i);
      dirty := after;
    }

    /** The byte buffer `flush_fat` fills for table sector `i`. */
    method TableBytes(i: nat) returns (sector: seq<Byte>)
      requires (i + 1) * 128 <= |fat|
      ensures sector == TableSector(fat, i)
    {
      sector := [];
      var j: nat := 0;
      ghost var goal := TableSector(fat, i);
      while j < 128
        invariant j <= 128 && |sector| == 4 * j && sector == goal[..4 * j]
      {
        var v := fat[i * 128 + j];
        var word: seq<Byte> := [ByteOf(v, 0), ByteOf(v, 1), ByteOf(v, 2), ByteOf(v, 3)];
        assert word == goal[4 * j..4 * j + 4];
        sector := sector + word;
        j := j + 1;
      }
    }

    /** One sector write. A failing one may leave anything in that sector. */
    method WriteSector(lba: nat, data: seq<Byte>) returns (ok: bool)
      requires |data| == 512
      modifies `disk
      ensures ok ==> disk == old(disk)[lba := data]
      ensures forall x: nat :: x != lba ==> Sector(disk, x) == Sector(old(disk), x)
    {
      ok := *;
      var garbage: seq<Byte> := *;
      disk := disk[lba := if ok then data else garbage];
    }

    method SetCluster(c: nat, v: nat)
      requires |fat| == |dirty| * 128 && c < |fat|
      modifies `fat, `dirty
      ensures fat == old(fat)[c := v] && dirty == old(dirty)[c / 128 := true]
    {
      fat := fat[c := v];
      dirty := dirty[c / 128 := true];
    }

    /** The lowest free cluster, if any. */
    method FindFree() returns (r: Result<nat, FatError>)
      requires |fat| >= 2
      ensures r.Err? ==> r.error == OutOfSpace && CountFree(fat, |fat|) == 0
      ensures r.Ok? ==> 2 <= r.value < |fat| && Next(fat, r.value) == 0
      ensures r.Ok? ==> forall c: nat :: 2 <= c < r.value ==> Next(fat, c) != 0
    {
      var c := 2;
      while c < |fat|
        invariant 2 <= c <= |fat|
        invariant forall d: nat :: 2 <= d < c ==> Next(fat, d) != 0
        invariant CountFree(fat, c) == 0
      {
        if Next(fat, c) == 0 {
          return Ok(c);
        }
        c := c + 1;
      }
      r := Err(OutOfSpace);
    }

    /** Takes the lowest free cluster as a chain of its own; out of space exactly when
        no cluster is free. */
    method AllocCluster() returns (r: Result<nat, FatError>)
      requires Valid()
      modifies `fat, `dirty, `free, `chains
      ensures Valid()
      ensures r.Err? ==> r.error == OutOfSpace && free == old(free) == 0 && chains == old(chains) && fat == old(fat)
      ensures r.Ok? ==>
                && 2 <= r.value < |fat| && !InUse(old(chains), r.value) && chains == old(chains) + {[r.value]}
                && fat == old(fat)[r.value := EOF_MARK] && free == old(free) - 1
                && (forall c: nat :: 2 <= c < r.value ==> Next(old(fat), c) != 0)
    {
      r := FindFree();
      if r.Ok? {
        AllocStep(g, disk, fat, dirty, free, chains, r.value);
        SetCluster(r.value, EOF_MARK);
        free := SaturatingDec(free);
        chains := chains + {[r.value]};
      }
    }

    /** Frees the chain that starts at `c[0]`. Stopped by the loop guard, it leaves the
        rest of the chain as a chain. */
    method FreeChain(ghost c: seq<nat>, first: nat) returns (r: Result<(), FatError>)
      requires Valid() && c in chains && first == c[0]
      modifies `fat, `dirty, `free, `chains
      ensures Valid() && |fat| == |old(fat)|
      ensures r.Ok? ==> |c| <= CHAIN_GUARD + 1 && chains == old(chains) - {c} && free == old(free) + |c|
      ensures r.Err? ==> r.error == Corrupt && |c| > CHAIN_GUARD + 1 && chains == Left(old(chains), c, CHAIN_GUARD + 1)
      ensures forall x :: 0 <= x < |fat| && x !in c ==> fat[x] == old(fat[x])
    {
      var cluster, guard := first, 0;
      assert c[0..] == c;
      ghost var bounds := ChainBoundsOf(c);
      while cluster < EOF_MARK && guard <= CHAIN_GUARD
        invariant guard <= |c| && guard <= CHAIN_GUARD + 1
        invariant cluster == if guard < |c| then c[guard] else EOF_MARK
        invariant Valid() && |fat| == |old(fat)| && chains == Left(old(chains), c, guard)
        invariant free == old(free) + guard
        invariant forall x :: 0 <= x < |fat| && x !in c ==> fat[x] == old(fat[x])
        decreases |c| - guard
      {
        cluster := FreeNext(old(fat), old(chains), c, guard, cluster);
        guard := guard + 1;
      }
      r := if cluster < EOF_MARK then Err(Corrupt) else Ok(());
    }

    ghost method ChainBoundsOf(c: seq<nat>) returns (ok: bool)
      requires Valid() && c in chains
      ensures ok && forall i :: 0 <= i < |c| ==> 2 <= c[i] < |fat| < EOF_MARK + 1
    {
      ChainBounds(fat, c);
      ok := true;
    }

    method FreeNext(ghost fat0: seq<nat>, ghost base: set<seq<nat>>, ghost c: seq<nat>, ghost k: nat, cluster: nat) returns (next: nat)
      requires Valid() && Formed(fat0, base) && c in base && k < |c| && cluster == c[k] && chains == Left(base, c, k)
      modifies `fat, `dirty, `free, `chains
      ensures Valid() && chains == Left(base, c, k + 1) && next == if k + 1 < |c| then c[k + 1] else EOF_MARK
      ensures free == old(free) + 1 && cluster < |old(fat)| && fat == old(fat)[cluster := 0]
    {
      LeftStep(fat0, base, c, k);
      next := FreeHead(c[k..], cluster);
    }

    /** One turn of the freeing loop. */
    method FreeHead(ghost c: seq<nat>, cluster: nat) returns (next: nat)
      requires Valid() && c in chains && cluster == c[0]
      modifies `fat, `dirty, `free, `chains
      ensures Valid() && chains == old(chains) - {c} + Rest(c)
      ensures next == if |c| > 1 then c[1] else EOF_MARK
      ensures free == old(free) + 1 && cluster < |old(fat)| && fat == old(fat)[cluster := 0]
    {
      FreeStep(g, disk, fat, dirty, free, chains, c);
      next := Next(fat, cluster);
      SetCluster(cluster, 0);
      free := free + 1;
      chains := chains - {c} + Rest(c);
    }

    /** `needed` clusters, one after the other. When space runs out the ones already
        taken stay allocated, each a chain of its own. */
    method AllocMany(needed: nat) returns (r: Result<seq<nat>, FatError>, ghost taken: seq<nat>)
      requires Valid()
      modifies `fat, `dirty, `free, `chains
      ensures Valid() && New(old(chains), taken) && chains == old(chains) + Singles(taken)
      ensures SameEntries(old(fat), fat, old(chains))
      ensures free == old(free) - |taken|
      ensures r.Ok? ==> r.value == taken && |taken| == needed
      ensures r.Err? ==> r.error == OutOfSpace && |taken| == old(free) < needed
    {
      var clusters: seq<nat> := [];
      var full := false;
      while |clusters| < needed && !full
        invariant |clusters| <= needed && (full ==> |clusters| < needed && free == 0)
        invariant Valid() && New(old(chains), clusters) && chains == old(chains) + Singles(clusters)
        invariant SameEntries(old(fat), fat, old(chains)) && free == old(free) - |clusters|
        decreases needed - |clusters|, !full
      {
        var c := TakeOne(old(fat), old(chains), clusters);
        if c.Ok? {
          clusters := clusters + [c.value];
        } else {
          full := true;
        }
      }
      taken := clusters;
      r := if full then Err(OutOfSpace) else Ok(clusters);
    }

    method TakeOne(ghost fat0: seq<nat>, ghost base: set<seq<nat>>, ghost taken: seq<nat>) returns (r: Result<nat, FatError>)
      requires Valid() && New(base, taken) && chains == base + Singles(taken) && SameEntries(fat0, fat, base)
      modifies `fat, `dirty, `free, `chains
      ensures Valid() && SameEntries(fat0, fat, base)
      ensures r.Ok? ==> New(base, taken + [r.value]) && chains == base + Singles(taken + [r.value]) && free == old(free) - 1
      ensures r.Err? ==> chains == old(chains) && free == old(free) == 0
    {
      r := AllocCluster();
      if r.Ok? {
        TakeMore(base, old(chains), taken, r.value);
      }
    }

    /** Links the single clusters `cs` into one chain. */
    method LinkAll(ghost base: set<seq<nat>>, cs: seq<nat>)
      requires Valid() && |cs| > 0 && New(base, cs) && chains == base + Singles(cs)
      modifies `fat, `dirty, `chains
      ensures Valid() && chains == base + {cs}
      ensures SameEntries(old(fat), fat, base)
    {
      LinkedUpEnds(base, cs);
      LinkUp(base, cs);
      MarkLast(base, old(fat), cs);
    }

    /** Links each cluster to the next one. */
    method LinkUp(ghost base: set<seq<nat>>, cs: seq<nat>)
      requires Valid() && |cs| > 0 && New(base, cs) && chains == LinkedUp(base, cs, 1)
      modifies `fat, `dirty, `chains
      ensures Valid() && chains == LinkedUp(base, cs, |cs|)
      ensures SameEntries(old(fat), fat, base)
    {
      var i := 0;
      ghost var done := 1;
      while i < |cs| - 1
        invariant 0 <= i <= |cs| - 1 && done == i + 1
        invariant Valid() && chains == LinkedUp(base, cs, done) && SameEntries(old(fat), fat, base)
      {
        done := LinkNext(base, old(fat), cs, i, done);
        i := i + 1;
      }
    }

    /** The last cluster ends the chain. */
    method MarkLast(ghost base: set<seq<nat>>, ghost fat0: seq<nat>, cs: seq<nat>)
      requires Valid() && |cs| > 0 && New(base, cs) && chains == base + {cs} && SameEntries(fat0, fat, base)
      modifies `fat, `dirty
      ensures Valid() && SameEntries(fat0, fat, base)
    {
      var last := cs[|cs| - 1];
      MarkStep(g, disk, fat, dirty, free, chains, cs, last);
      assert last in cs;
      SetCluster(last, EOF_MARK);
    }

    method LinkNext(ghost base: set<seq<nat>>, ghost fat0: seq<nat>, cs: seq<nat>, i: nat, ghost k: nat) returns (ghost k2: nat)
      requires Valid() && i + 1 == k < |cs| && New(base, cs) && chains == LinkedUp(base, cs, k) && SameEntries(fat0, fat, base)
      modifies `fat, `dirty, `chains
      ensures k2 == k + 1 && Valid() && chains == LinkedUp(base, cs, k2) && SameEntries(fat0, fat, base)
    {
      k2 := k + 1;
      var here, next := cs[i], cs[i + 1];
      ghost var done, tail, after := LinkedUpNext(base, cs, chains, k, k2);
      JoinStep(g, disk, fat, dirty, free, chains, done, tail);
      SetCluster(here, next);
      chains := after;
    }

    method ReadSector(lba: nat) returns (r: Result<seq<Byte>, FatError>)
      ensures r == Ok(Sector(disk, lba)) || r == Err(Io)
    {
      r := ReadDevice(disk, lba);
    }

    /** The inner loop of writing a file: one cluster's sectors. */
    method WriteCluster(cluster: nat, content: seq<Byte>, from: nat) returns (ok: bool, written: nat)
      requires Good(g) && 2 <= cluster < g.fatSize * 128 && from < |content|
      modifies `disk
      ensures ok ==> disk == Put(old(disk), From(Base(g, cluster), g.spc), content[from..])
      ensures ok ==> written == from + Min(|content| - from, 512 * g.spc)
      ensures SameBut(old(disk), disk, From(Base(g, cluster), g.spc))
    {
      SectorExact(g, cluster);
      var start, spc := ToSector(g, cluster), g.spc;
      ghost var lbas := From(start, spc);
      ghost var goal := Put(disk, lbas, content[from..]);
      var s: nat := 0;
      written, ok := from, true;
      assert lbas[0..] == lbas;
      while s < spc && ok && written < |content|
        invariant s <= spc == |lbas|
        invariant ok ==> written == from + Min(|content| - from, 512 * s) && Writing(disk, lbas, s, content, written, goal)
        invariant SameBut(old(disk), disk, lbas)
        decreases spc - s
      {
        ghost var s2 := s + 1;
        var end := written + Min(|content| - written, 512);
        assert lbas[s] == start + s && lbas[s] in lbas;
        WritingStep(disk, lbas, s, s2, content, written, end, goal);
        ok := WriteSector(start + s, Pad(content[written..end]));
        written := end;
        s := s + 1;
      }
    }

    /** Lays `content` out over the clusters `cs`. */
    method WriteData(cs: seq<nat>, content: seq<Byte>) returns (ok: bool)
      requires Good(g) && InRange(g, cs) && content != [] && |content| <= 512 * (|cs| * g.spc)
      modifies `disk
      ensures ok ==> disk == Put(old(disk), Lbas(g, cs), content)
      ensures SameBut(old(disk), disk, Lbas(g, cs))
    {
      var i: nat, written: nat := 0, 0;
      ok := true;
      assert cs[0..] == cs && content[0..] == content;
      while i < |cs| && ok && written < |content|
        invariant 0 <= i <= |cs|
        invariant ok ==> written <= |content|
        invariant ok ==> Put(disk, Lbas(g, cs[i..]), content[written..]) == Put(old(disk), Lbas(g, cs), content)
        invariant SameBut(old(disk), disk, Lbas(g, cs))
        decreases |cs| - i, ok
      {
        ghost var i2, w, w2 := i + 1, written, written + Min(|content| - written, 512 * g.spc);
        PutCluster(g, disk, cs, i, i2, content, w, w2);
        LbasWithin(g, cs, i);
        ok, written := WriteCluster(cs[i], content, written);
        i := i + 1;
      }
    }

    method ReadPiece(ghost lbas: seq<nat>, ghost s: nat, lba: nat, left: nat, data: seq<Byte>, ghost n: nat) returns (ok: bool, data2: seq<Byte>)
      requires Reading(disk, lbas, s, left, data, n) && s < |lbas| && lba == lbas[s] && left > 0
      ensures ok ==> Reading(disk, lbas, s + 1, left - Min(left, 512), data2, n)
    {
      var take := Min(left, 512);
      ReadingStep(disk, lbas, s, s + 1, left, take, data, n);
      var sector := ReadSector(lba);
      ok, data2 := sector.Ok?, data;
      if ok {
        data2 := data + sector.value[..take];
      }
    }

    /** The inner loop of reading a file: up to `n` bytes of one cluster. */
    method ReadCluster(cluster: nat, n: nat) returns (r: Result<seq<Byte>, FatError>)
      requires Good(g) && 2 <= cluster < g.fatSize * 128 && n > 0
      ensures r == Ok(Get(disk, From(Base(g, cluster), g.spc), n)) || r == Err(Io)
    {
      SectorExact(g, cluster);
      var start, spc := ToSector(g, cluster), g.spc;
      ghost var lbas := From(start, spc);
      var s: nat, data: seq<Byte>, left: nat := 0, [], n;
      var ok := true;
      assert lbas[0..] == lbas;
      while s < spc && ok && left > 0
        invariant s <= spc == |lbas|
        invariant ok ==> Reading(disk, lbas, s, left, data, n)
        decreases spc - s
      {
        assert lbas[s] == start + s;
        ok, data := ReadPiece(lbas, s, start + s, left, data, n);
        left := left - Min(left, 512);
        s := s + 1;
      }
      if ok {
        ReadingDone(disk, lbas, s, left, data, n);
      }
      r := if ok then Ok(data) else Err(Io);
    }

    /** Reading `size` bytes from the chain `c` starting at `first`, or from a first
        cluster below 2 when `c` is empty. */
    method ReadFileData(ghost c: seq<nat>, first: nat, size: nat) returns (r: Result<seq<Byte>, FatError>)
      requires Good(g) && |fat| == g.fatSize * 128 && InRange(g, c)
      requires if first < 2 then c == [] else IsChain(fat, c) && c[0] == first
      ensures r == FileData(g, disk, c, size) || r == Err(Io)
    {
      var cluster, guard: nat, data: seq<Byte>, left := first, 0, [], size;
      var error: Option<FatError> := None;
      assert c[0..] == c;
      while left > 0 && error.None?
        invariant guard <= CHAIN_GUARD + 1
        invariant error == None ==> Following(g, disk, c, guard, left, data, size)
        invariant error == None && left > 0 ==> if guard < |c| then cluster == c[guard] else cluster < 2 && guard == |c|
        invariant error == Some(Corrupt) ==> FileData(g, disk, c, size) == Err(Corrupt)
        invariant error.Some? ==> error.value == Corrupt || error.value == Io
        decreases error.None?, CHAIN_GUARD + 1 - guard
      {
        if cluster < 2 || guard > CHAIN_GUARD {
          FollowingCut(g, disk, c, guard, left, data, size);
          error := Some(Corrupt);
        } else {
          cluster, left, data, error := ReadNext(c, cluster, guard, left, data, size);
          guard := guard + 1;
        }
      }
      if error == None {
        FollowingDone(g, disk, c, guard, data, size);
      }
      r := if error.Some? then Err(error.value) else Ok(data);
    }

    /** One turn of the reading loop. */
    method ReadNext(ghost c: seq<nat>, cluster: nat, guard: nat, left: nat, data: seq<Byte>, ghost size: nat)
      returns (next: nat, left2: nat, data2: seq<Byte>, error: Option<FatError>)
      requires Good(g) && |fat| == g.fatSize * 128 && InRange(g, c) && IsChain(fat, c)
      requires guard < |c| && guard <= CHAIN_GUARD && cluster == c[guard] && left > 0 && Following(g, disk, c, guard, left, data, size)
      ensures error == None ==> Following(g, disk, c, guard + 1, left2, data2, size)
      ensures error == None && left2 > 0 ==> guard + 1 < |c| && next == c[guard + 1]
      ensures error == Some(Corrupt) ==> FileData(g, disk, c, size) == Err(Corrupt)
      ensures error.Some? ==> error.value == Corrupt || error.value == Io
    {
      ghost var k2, rest := guard + 1, left - Min(left, 512 * g.spc);
      ChainAt(fat, c, guard);
      next, left2, data2, error := cluster, left, data, Some(Io);
      var part := ReadCluster(cluster, left);
      if part.Ok? {
        FollowingStep(g, disk, c, guard, k2, left, rest, data, part.value, size);
        data2 := data + part.value;
        left2 := left - |part.value|;
        next := Next(fat, cluster);
        error := if left2 > 0 && next >= EOF_MARK then Some(Corrupt) else None;
        if error.Some? {
          FollowingCut(g, disk, c, k2, left2, data2, size);
        }
      }
    }

    /** The middle of `write_file_impl`: a fresh chain that holds `content`. Any outcome
        keeps the volume sound and every file on the chains there were. */
    method StoreContent(content: seq<Byte>) returns (r: Result<nat, FatError>, ghost cs: seq<nat>)
      requires Valid()
      modifies this
      ensures Valid() && SameEntries(old(fat), fat, old(chains)) && SameFiles(g, old(disk), disk, old(chains))
      ensures old(chains) <= chains
      ensures content == [] ==> r == Ok(0) && chains == old(chains) && disk == old(disk)
      ensures content != [] && r.Ok? ==> New(old(chains), cs) && chains == old(chains) + {cs} && |cs| > 0 && r.value == cs[0]
      ensures content != [] && r.Ok? ==> |cs| == CeilDiv(|content|, 512 * g.spc) && InRange(g, cs) && SameBut(old(disk), disk, Lbas(g, cs))
      ensures content != [] && r.Ok? ==> FileData(g, disk, cs, |content|) == if |cs| <= CHAIN_GUARD + 1 then Ok(content) else Err(Corrupt)
      ensures r == Err(OutOfSpace) <==> old(free) < CeilDiv(|content|, 512 * g.spc)
      ensures r.Err? ==> r.error == OutOfSpace || r.error == Io
    {
      var needed := CeilDiv(|content|, 512 * g.spc);
      CeilDivIs(|content|, g.spc, needed);
      if needed == 0 {
        r, cs := Ok(0), [];
      } else {
        r, cs := StoreChain(content, needed);
      }
    }

    method StoreChain(content: seq<Byte>, needed: nat) returns (r: Result<nat, FatError>, ghost cs: seq<nat>)
      requires Valid() && content != [] && Tight(g.spc, |content|, needed) && needed > 0
      modifies this
      ensures Valid() && SameEntries(old(fat), fat, old(chains)) && SameFiles(g, old(disk), disk, old(chains))
      ensures old(chains) <= chains
      ensures r.Ok? ==> New(old(chains), cs) && chains == old(chains) + {cs} && |cs| == needed && r.value == cs[0]
      ensures r.Ok? ==> InRange(g, cs) && SameBut(old(disk), disk, Lbas(g, cs))
                        && FileData(g, disk, cs, |content|) == if |cs| <= CHAIN_GUARD + 1 then Ok(content) else Err(Corrupt)
      ensures r == Err(OutOfSpace) <==> old(free) < needed
      ensures r.Err? ==> r.error == OutOfSpace || r.error == Io
    {
      var got;
      got, cs := AllocMany(needed);
      if got.Err? {
        r := Err(OutOfSpace);
      } else {
        var ok := LinkAndWrite(old(chains), got.value, content);
        r := if ok then Ok(got.value[0]) else Err(Io);
      }
    }

    method LinkAndWrite(ghost base: set<seq<nat>>, cs: seq<nat>, content: seq<Byte>) returns (ok: bool)
      requires Valid() && New(base, cs) && chains == base + Singles(cs)
      requires content != [] && Tight(g.spc, |content|, |cs|) && |cs| > 0
      modifies this
      ensures Valid() && chains == base + {cs} && SameEntries(old(fat), fat, base) && SameFiles(g, old(disk), disk, base)
      ensures InRange(g, cs) && SameBut(old(disk), disk, Lbas(g, cs))
      ensures ok ==> FileData(g, disk, cs, |content|) == if |cs| <= CHAIN_GUARD + 1 then Ok(content) else Err(Corrupt)
    {
      LinkAll(base, cs);
      NewInRange(g, disk, fat, dirty, free, chains, cs);
      ok := WriteData(cs, content);
      DataStep(g, old(disk), disk, fat, dirty, free, chains, cs);
      NewKeepsFiles(g, old(disk), disk, base, cs);
      if ok {
        StoredReads(g, old(disk), disk, cs, content);
      }
    }

    /** Appends one zeroed cluster to the directory chain `c`. When the chain is longer
        than the loop guard allows, the new cluster stays a chain of its own. */
    method ExtendDir(ghost c: seq<nat>, parent: nat) returns (r: Result<nat, FatError>, ghost extra: nat)
      requires Valid() && c in chains && parent == c[0]
      modifies this
      ensures Valid()
      ensures r == Err(OutOfSpace) <==> old(free) == 0
      ensures r == Err(OutOfSpace) ==> chains == old(chains) && disk == old(disk)
      ensures r != Err(OutOfSpace) ==> 2 <= extra < g.fatSize * 128 && !InUse(old(chains), extra)
      ensures r != Err(OutOfSpace) ==> SameBut(old(disk), disk, From(Base(g, extra), g.spc))
      ensures r != Err(OutOfSpace) ==> (r == Err(Corrupt) <==> |c| > CHAIN_GUARD + 1)
      ensures r == Err(Corrupt) ==> chains == old(chains) + {[extra]} && disk == old(disk)
      ensures r.Ok? || r == Err(Io) ==> chains == old(chains) - {c} + {c + [extra]}
      ensures r.Ok? ==> r.value == extra && forall x :: x in From(Base(g, extra), g.spc) ==> Sector(disk, x) == ZeroSector()
      ensures r.Err? ==> r.error == OutOfSpace || r.error == Corrupt || r.error == Io
    {
      extra := 0;
      r := AllocCluster();
      if r.Ok? {
        extra := r.value;
        var end := LastCluster(c, parent);
        if end.Err? {
          r := Err(Corrupt);
        } else {
          assert extra in [extra] && [extra] !in old(chains);
          JoinStep(g, disk, fat, dirty, free, chains, c, [extra]);
          SetCluster(end.value, r.value);
          chains := chains - {c, [extra]} + {c + [extra]};
          assert chains == old(chains) - {c} + {c + [extra]};
          var ok := ZeroCluster(r.value);
          r := if ok then Ok(r.value) else Err(Io);
        }
      }
    }

    /** Walks to the end of a chain. */
    method LastCluster(ghost c: seq<nat>, parent: nat) returns (r: Result<nat, FatError>)
      requires IsChain(fat, c) && parent == c[0] && |fat| <= EOF_MARK
      ensures r == if |c| > CHAIN_GUARD + 1 then Err(Corrupt) else Ok(c[|c| - 1])
    {
      var current, guard: nat := parent, 0;
      ChainAt(fat, c, 0);
      while Next(fat, current) < EOF_MARK && guard <= CHAIN_GUARD
        invariant guard < |c| && guard <= CHAIN_GUARD + 1 && current == c[guard] && 2 <= current < |fat|
        invariant Next(fat, current) == if guard + 1 < |c| then c[guard + 1] else EOF_MARK
        decreases |c| - guard
      {
        assert guard + 1 < |c|;
        ChainAt(fat, c, guard + 1);
        current := Next(fat, current);
        guard := guard + 1;
      }
      if guard + 1 < |c| {
        ChainAt(fat, c, guard + 1);
      }
      r := if guard > CHAIN_GUARD then Err(Corrupt) else Ok(current);
    }

    method ZeroCluster(cluster: nat) returns (ok: bool)
      requires Valid() && 2 <= cluster < g.fatSize * 128
      modifies `disk
      ensures Valid() && SameBut(old(disk), disk, From(Base(g, cluster), g.spc))
      ensures ok ==> forall x :: x in From(Base(g, cluster), g.spc) ==> Sector(disk, x) == ZeroSector()
    {
      SectorExact(g, cluster);
      var start, spc, s: nat := ToSector(g, cluster), g.spc, 0;
      ghost var lbas := From(start, spc);
      ok := true;
      while s < spc && ok
        invariant s <= spc == |lbas| && SameBut(old(disk), disk, lbas)
        invariant ok ==> forall x: nat :: start <= x < start + s ==> Sector(disk, x) == ZeroSector()
        decreases spc - s
      {
        assert lbas[s] == start + s && lbas[s] in lbas;
        ok := WriteSector(start + s, ZeroSector());
        s := s + 1;
      }
      LbasOne(g, cluster);
      DataStep(g, old(disk), disk, fat, dirty, free, chains, [cluster]);
    }
  }

  // ---- mounting ------------------------------------------------------------------------------------

  lemma RowStep(disk: Disk, reserved: nat, table: seq<nat>, row: seq<nat>, i: nat)
    requires TableIs(disk, reserved, table, i) && |table| == i * 128
    requires |row| == 128 && forall j: nat :: j < 128 ==> row[j] == WordAt(Sector(disk, reserved + i), j)
    ensures TableIs(disk, reserved, table + row, i + 1)
  {
    forall k: nat | k <= i ensures RowIs(disk, reserved, table + row, k) {
      assert k < i ==> RowIs(disk, reserved, table, k);
    }
  }

  /** The table loop of `open`; the sector numbers are computed in 32 bits. */
  method ReadTable(image: Disk, g: Geometry) returns (r: Result<seq<nat>, FatError>)
    ensures r.Err? ==> r.error == Io
    ensures r.Ok? ==> |r.value| == g.fatSize * 128
    ensures r.Ok? && g.reserved + g.fatSize <= WRAP ==> TableIs(image, g.reserved, r.value, g.fatSize)
  {
    var table: seq<nat>, i := [], 0;
    while i < g.fatSize
      invariant 0 <= i <= g.fatSize && |table| == i * 128
      invariant g.reserved + g.fatSize <= WRAP ==> TableIs(image, g.reserved, table, i)
    {
      var sector := ReadDevice(image, (g.reserved + i) % WRAP);
      if sector.Err? {
        return Err(Io);
      }
      var row := seq(128, j requires 0 <= j < 128 => WordAt(sector.value, j));
      if g.reserved + g.fatSize <= WRAP {
        RowStep(image, g.reserved, table, row, i);
      }
      table := table + row;
      i := i + 1;
    }
    r := Ok(table);
  }

  /** `mount`: an invalid boot sector is refused; a volume that is mounted shows the table on
      disk, and meets the volume's invariant exactly when its geometry is good and its table
      is well formed. */
  method Mount(image: Disk, ghost layout: set<seq<nat>>) returns (r: Result<Volume, FatError>)
    ensures r.Err? ==> r.error == Io || (r.error == InvalidVolume && !BootOk(Sector(image, 0)))
    ensures r.Ok? ==> BootOk(Sector(image, 0)) && fresh(r.value) && r.value.g == BootGeometry(Sector(image, 0))
    ensures r.Ok? ==> r.value.disk == image && r.value.chains == layout && AllClean(r.value.dirty, |r.value.dirty|)
    ensures r.Ok? && Good(r.value.g) ==> |r.value.fat| == r.value.g.fatSize * 128 && TableIs(image, r.value.g.reserved, r.value.fat, r.value.g.fatSize)
    ensures r.Ok? ==> (r.value.Valid() <==> Good(r.value.g) && Formed(r.value.fat, layout))
  {
    var sector := ReadDevice(image, 0);
    if sector.Err? {
      return Err(Io);
    }
    var g := ReadBoot(sector.value);
    if g.None? {
      return Err(InvalidVolume);
    }
    var table := ReadTable(image, g.value);
    if table.Err? {
      return Err(Io);
    }
    var v := new Volume.Open(g.value, image, table.value, layout);
    r := Ok(v);
  }

  /** Mounting the disk of a volume whose changes are all written back finds the same table. */
  method MountAgain(v: Volume) returns (r: Result<Volume, FatError>)
    requires v.Valid() && AllClean(v.dirty, |v.dirty|) && BootOk(Sector(v.disk, 0)) && BootGeometry(Sector(v.disk, 0)) == v.g
    ensures r.Err? ==> r.error == Io
    ensures r.Ok? ==> r.value.Valid() && r.value.fat == v.fat && r.value.free == v.free && r.value.chains == v.chains
  {
    r := Mount(v.disk, v.chains);
    if r.Ok? {
      Remount(v.g, v.disk, v.fat, v.dirty, v.free, v.chains, r.value.fat);
    }
  }

  // ---- a table with more entries than the volume has clusters ------------------------------------------

  /** The cluster's sectors lie below the volume's sector count. */
  predicate OnVolume(g: Geometry, total: nat, c: nat)
    requires c >= 2
  {
    Base(g, c) + g.spc <= total
  }

  /** The whole clusters behind the first data sector. */
  function Clusters(g: Geometry, total: nat): nat
    requires g.spc > 0
  {
    if total < g.firstData then 0 else (total - g.firstData) / g.spc
  }

  /** Clusters are numbered from 2 on. */
  lemma OnVolumeIs(g: Geometry, total: nat, c: nat)
    requires g.spc > 0 && c >= 2
    ensures OnVolume(g, total, c) <==> c < Clusters(g, total) + 2
  {
    var k, n := c - 2, Clusters(g, total);
    if g.firstData <= total {
      var rest := total - g.firstData;
      assert rest == n * g.spc + rest % g.spc;
      if k < n {
        MulStep(k, n, g.spc);
      } else {
        assert k * g.spc == n * g.spc + (k - n) * g.spc;
      }
    }
  }

  /** Every entry of the table stands for a cluster of the volume exactly when the table was not
      rounded up beyond them. */
  lemma TableCovers(g: Geometry, total: nat)
    requires Good(g)
    ensures (forall c :: 2 <= c < g.fatSize * 128 ==> OnVolume(g, total, c)) <==> g.fatSize * 128 <= Clusters(g, total) + 2
  {
    forall c | 2 <= c < g.fatSize * 128 ensures OnVolume(g, total, c) <==> c < Clusters(g, total) + 2 {
      OnVolumeIs(g, total, c);
    }
    assert OnVolume(g, total, g.fatSize * 128 - 1) <==> g.fatSize * 128 - 1 < Clusters(g, total) + 2;
  }

  /** An entry of the table is free and stands for a cluster of the volume. */
  ghost predicate FreeOnVolume(g: Geometry, total: nat, fat: seq<nat>) {
    exists c :: 2 <= c < |fat| && Next(fat, c) == 0 && OnVolume(g, total, c)
  }

  /** The search is bounded by the table alone: the cluster it takes lies on the volume exactly
      when some free cluster does. */
  method AllocExactly(v: Volume, total: nat) returns (r: Result<nat, FatError>)
    requires v.Valid()
    modifies v`fat, v`dirty, v`free, v`chains
    ensures v.Valid() && (r.Err? ==> !FreeOnVolume(v.g, total, old(v.fat)))
    ensures r.Ok? ==> 2 <= r.value && (OnVolume(v.g, total, r.value) <==> FreeOnVolume(v.g, total, old(v.fat)))
  {
    ghost var fat, g, disk, dirty, free, chains := v.fat, v.g, v.disk, v.dirty, v.free, v.chains;
    r := v.AllocCluster();
    if FreeOnVolume(g, total, fat) {
      var c :| 2 <= c < |fat| && Next(fat, c) == 0 && OnVolume(g, total, c);
      AllocStep(g, disk, fat, dirty, free, chains, c);
      OnVolumeIs(g, total, c);
      OnVolumeIs(g, total, r.value);
    }
    if r.Ok? {
      FreeEntry(fat, chains, r.value);
    }
  }

  lemma FreeEntry(fat: seq<nat>, chains: set<seq<nat>>, c: nat)
    requires Formed(fat, chains) && 2 <= c < |fat| && !InUse(chains, c)
    ensures Next(fat, c) == 0
  {
  }

  /** An empty volume of 35 sectors has two clusters and a table of 128 entries: the third
      cluster taken lies behind its end. */
  method ThirdBehindEnd() returns (v: Volume, c: nat)
    ensures v.Valid() && Clusters(v.g, 35) == 2 && c == 4 && [c] in v.chains && !OnVolume(v.g, 35, c)
  {
    var g := Geometry(1, 32, 1, 33);
    var table: seq<nat> := seq(128, _ => 0);
    assert RowIs(map[], g.reserved, table, 0);
    v := new Volume.Open(g, map[], table, {});
    var a := TakeLowest(v, 2);
    var b := TakeLowest(v, 3);
    c := TakeLowest(v, 4);
  }

  /** The entries below `c` are in use, the others free. */
  predicate FreeFrom(fat: seq<nat>, c: nat) { forall d: nat :: 2 <= d < |fat| ==> (Next(fat, d) == 0 <==> c <= d) }

  lemma FreeFromNext(fat: seq<nat>, c: nat)
    requires FreeFrom(fat, c) && 2 <= c < |fat|
    ensures FreeFrom(fat[c := EOF_MARK], c + 1)
  {
    var fat2 := fat[c := EOF_MARK];
    forall d: nat | 2 <= d < |fat| ensures Next(fat2, d) == 0 <==> c + 1 <= d {
      assert Next(fat, d) == 0 <==> c <= d;
    }
  }

  /** Takes cluster `c`, the lowest free one. */
  method TakeLowest(v: Volume, c: nat) returns (r: nat)
    requires v.Valid() && 2 <= c < |v.fat| && FreeFrom(v.fat, c)
    modifies v`fat, v`dirty, v`free, v`chains
    ensures v.Valid() && r == c && [c] in v.chains && |v.fat| == |old(v.fat)| && FreeFrom(v.fat, c + 1)
  {
    AllocStep(v.g, v.disk, v.fat, v.dirty, v.free, v.chains, c);
    ghost var fat, chains := v.fat, v.chains;
    var got := v.AllocCluster();
    r := got.value;
    FreeEntry(fat, chains, r);
    assert Next(fat, c) == 0;
    FreeFromNext(fat, c);
  }
}
