/** FAT32 cluster chains, file data and the write-back FAT cache
    (src/fat.rs:50-153, 228-343, 389-419, 534-554). */
module Fat {
  import opened Bytes

  const EOF_MARK: nat := 0x0FFF_FFFF
  const CHAIN_GUARD: nat := 1_000_000

  /** `fat[cluster] & CLUSTER_MASK`. */
  function Next(fat: seq<nat>, c: nat): nat
    requires c < |fat|
  {
    fat[c] % 0x1000_0000
  }

  // ---- chains --------------------------------------------------------------------

  /** Following the table from c[0] visits c and ends at the end-of-chain mark. */
  ghost predicate IsChain(fat: seq<nat>, c: seq<nat>) {
    && |c| > 0 && 2 <= c[0] < |fat|
    && (if |c| == 1 then Next(fat, c[0]) == EOF_MARK else Next(fat, c[0]) == c[1] && IsChain(fat, c[1..]))
  }

  ghost predicate NoDup(c: seq<nat>) { forall i, j :: 0 <= i < j < |c| ==> c[i] != c[j] }

  ghost predicate Apart(c: seq<nat>, d: seq<nat>) { forall x :: x in c ==> x !in d }

  /** Cluster `x` belongs to some chain. */
  ghost predicate InUse(chains: set<seq<nat>>, x: nat) { exists c :: c in chains && x in c }

  /** The table is a set of pairwise disjoint acyclic chains plus free entries. */
  ghost predicate Formed(fat: seq<nat>, chains: set<seq<nat>>) {
    && (forall c :: c in chains ==> IsChain(fat, c) && NoDup(c))
    && (forall c, d :: c in chains && d in chains && c != d ==> Apart(c, d))
    && (forall x :: 2 <= x < |fat| && !InUse(chains, x) ==> Next(fat, x) == 0)
  }

  /** Free entries among clusters 2..n. */
  ghost function CountFree(fat: seq<nat>, n: nat): nat
    requires n <= |fat|
  {
    if n <= 2 then 0 else CountFree(fat, n - 1) + (if Next(fat, n - 1) == 0 then 1 else 0)
  }

  lemma {:induction false} CountUpdate(fat: seq<nat>, x: nat, v: nat, n: nat)
    requires 2 <= x < |fat| && n <= |fat|
    ensures CountFree(fat[x := v], n) == CountFree(fat, n)
              + (if x < n && v % 0x1000_0000 == 0 then 1 else 0) - (if x < n && Next(fat, x) == 0 then 1 else 0)
  {
    if n > 2 {
      CountUpdate(fat, x, v, n - 1);
    }
  }

  lemma {:induction false} ChainFrame(fat: seq<nat>, fat2: seq<nat>, c: seq<nat>)
    requires IsChain(fat, c) && |fat2| == |fat| && forall x :: x in c && x < |fat| ==> Next(fat2, x) == Next(fat, x)
    ensures IsChain(fat2, c)
    decreases c
  {
    if |c| > 1 {
      ChainFrame(fat, fat2, c[1..]);
    }
  }

  lemma {:induction false} ChainAt(fat: seq<nat>, c: seq<nat>, k: nat)
    requires IsChain(fat, c) && k < |c|
    ensures 2 <= c[k] < |fat| && IsChain(fat, c[k..])
    ensures Next(fat, c[k]) == if k + 1 < |c| then c[k + 1] else EOF_MARK
    decreases c
  {
    if k == 0 {
      assert c[0..] == c;
    } else {
      ChainAt(fat, c[1..], k - 1);
      assert c[1..][k - 1..] == c[k..];
    }
  }

  /** Pointing the last cluster of `c` at the head of `d`. */
  lemma {:induction false} ChainJoin(fat: seq<nat>, c: seq<nat>, d: seq<nat>)
    requires IsChain(fat, c) && IsChain(fat, d) && NoDup(c) && Apart(c, d) && d[0] < EOF_MARK
    ensures c[|c| - 1] < |fat| && IsChain(fat[c[|c| - 1] := d[0]], c + d)
    decreases c
  {
    ChainAt(fat, c, |c| - 1);
    var last := c[|c| - 1];
    var fat2 := fat[last := d[0]];
    if |c| == 1 {
      ChainFrame(fat, fat2, d);
      assert (c + d)[1..] == d;
    } else {
      ChainJoin(fat, c[1..], d);
      assert (c + d)[1..] == c[1..] + d;
      assert c[0] != last;
    }
  }

  /** A free entry becomes a chain of one. */
  lemma AllocForms(fat: seq<nat>, chains: set<seq<nat>>, x: nat)
    requires Formed(fat, chains) && 2 <= x < |fat| && Next(fat, x) == 0
    ensures Formed(fat[x := EOF_MARK], chains + {[x]}) && !InUse(chains, x)
  {
    var fat2 := fat[x := EOF_MARK];
    forall c | c in chains ensures x !in c && IsChain(fat2, c) {
      LinkedNonZero(fat, c, x);
      ChainFrame(fat, fat2, c);
    }
    forall y ensures InUse(chains, y) || y == x ==> InUse(chains + {[x]}, y) {
      assert [x] in chains + {[x]};
      if InUse(chains, y) {
        var c :| c in chains && y in c;
        assert c in chains + {[x]};
      }
    }
  }

  /** No entry on a chain is free. */
  lemma LinkedNonZero(fat: seq<nat>, c: seq<nat>, x: nat)
    requires IsChain(fat, c)
    ensures x in c ==> x < |fat| && Next(fat, x) != 0
  {
    if x in c {
      var k :| 0 <= k < |c| && c[k] == x;
      ChainAt(fat, c, k);
      if k + 1 < |c| {
        ChainAt(fat, c, k + 1);
      }
    }
  }

  lemma NoDupConcat(c: seq<nat>, d: seq<nat>)
    requires NoDup(c) && NoDup(d) && Apart(c, d)
    ensures NoDup(c + d)
  {
    forall i, j | 0 <= i < j < |c + d| ensures (c + d)[i] != (c + d)[j] {
      if i < |c| <= j {
        assert c[i] in c && d[j - |c|] in d;
      }
    }
  }

  /** Two chains become one. */
  lemma JoinForms(fat: seq<nat>, chains: set<seq<nat>>, c: seq<nat>, d: seq<nat>)
    requires Formed(fat, chains) && c in chains && d in chains && c != d && d[0] < EOF_MARK
    ensures c[|c| - 1] < |fat| && Formed(fat[c[|c| - 1] := d[0]], chains - {c, d} + {c + d})
  {
    ChainAt(fat, c, |c| - 1);
    var fat2, after := fat[c[|c| - 1] := d[0]], chains - {c, d} + {c + d};
    ChainJoin(fat, c, d);
    NoDupConcat(c, d);
    forall e | e in after ensures IsChain(fat2, e) && NoDup(e) {
      if e != c + d {
        assert Apart(c, e);
        ChainFrame(fat, fat2, e);
      }
    }
    forall e, g | e in after && g in after && e != g ensures Apart(e, g) {
      assert e != c + d ==> Apart(e, c) && Apart(e, d);
      assert g != c + d ==> Apart(g, c) && Apart(g, d) && Apart(c, g) && Apart(d, g);
    }
    forall y ensures InUse(chains, y) ==> InUse(after, y) {
      assert c + d in after;
      if InUse(chains, y) {
        var e :| e in chains && y in e;
        assert e == c || e == d || e in after;
      }
    }
    assert InUse(chains, c[|c| - 1]);
  }

  /** Freeing the first cluster of a chain leaves the rest of it as a chain. */
  lemma DropHeadForms(fat: seq<nat>, chains: set<seq<nat>>, c: seq<nat>)
    requires Formed(fat, chains) && c in chains
    ensures c[0] < |fat| && Formed(fat[c[0] := 0], chains - {c} + (if |c| > 1 then {c[1..]} else {}))
  {
    var fat2, after := fat[c[0] := 0], chains - {c} + (if |c| > 1 then {c[1..]} else {});
    forall e | e in after ensures IsChain(fat2, e) && NoDup(e) {
      if |c| > 1 && e == c[1..] {
        ChainFrame(fat, fat2, e);
      } else {
        assert Apart(c, e);
        ChainFrame(fat, fat2, e);
      }
    }
    forall e, g | e in after && g in after && e != g ensures Apart(e, g) {
      assert e in chains || (|c| > 1 && e == c[1..]);
      assert g in chains || (|c| > 1 && g == c[1..]);
      assert e in chains && e != c ==> Apart(e, c) && Apart(c, e);
      assert g in chains && g != c ==> Apart(g, c) && Apart(c, g);
    }
    forall y ensures InUse(chains, y) ==> InUse(after, y) || y == c[0] {
      if InUse(chains, y) && y != c[0] {
        var e :| e in chains && y in e;
        if e == c {
          assert |c| > 1 && y in c[1..] && c[1..] in after;
        } else {
          assert e in after;
        }
      }
    }
  }

  // ---- the table on disk ---------------------------------------------------------------

  /** Sector `i` of the table as `flush_fat` writes it. */
  function TableSector(fat: seq<nat>, i: nat): (r: seq<Byte>)
    requires (i + 1) * 128 <= |fat|
  {
    seq(512, b requires 0 <= b < 512 => ByteOf(fat[i * 128 + b / 4], b % 4))
  }

  /** `u32::from_le_bytes` of bytes 4j..4j+4, as `open` reads them back. */
  function WordAt(sector: seq<Byte>, j: nat): nat
    requires 4 * j + 4 <= |sector|
  {
    var b0: nat, b1: nat, b2: nat, b3: nat := sector[4 * j], sector[4 * j + 1], sector[4 * j + 2], sector[4 * j + 3];
    b0 + 256 * (b1 + 256 * (b2 + 256 * b3))
  }

  /** Reading a flushed table sector back gives the cached entries. */
  lemma TableRoundTrip(fat: seq<nat>, i: nat, j: nat)
    requires (i + 1) * 128 <= |fat| && j < 128 && fat[i * 128 + j] < 0x1_0000_0000
    ensures WordAt(TableSector(fat, i), j) == fat[i * 128 + j]
  {
    var v := fat[i * 128 + j];
    var s := TableSector(fat, i);
    WordBytes(v);
    assert s[4 * j] == ByteOf(v, 0) && s[4 * j + 1] == ByteOf(v, 1) && s[4 * j + 2] == ByteOf(v, 2) && s[4 * j + 3] == ByteOf(v, 3);
  }

  lemma WordBytes(v: nat)
    requires v < 0x1_0000_0000
    ensures ByteOf(v, 0) + 256 * (ByteOf(v, 1) + 256 * (ByteOf(v, 2) + 256 * ByteOf(v, 3))) == v
  {
    var a := v / 256;
    var b := a / 256;
    var c := b / 256;
    BytesOf(v, a, b, c);
    assert v == 256 * a + v % 256 && a == 256 * b + a % 256 && b == 256 * c + b % 256 && c % 256 == c;
  }

  lemma BytesOf(v: nat, a: nat, b: nat, c: nat)
    requires a == v / 256 && b == a / 256 && c == b / 256
    ensures ByteOf(v, 0) == v % 256 && ByteOf(v, 1) == a % 256 && ByteOf(v, 2) == b % 256 && ByteOf(v, 3) == c % 256
  {
    assert ByteOf(v, 1) == ByteOf(a, 0) && ByteOf(v, 2) == ByteOf(a, 1) == ByteOf(b, 0);
    assert ByteOf(v, 3) == ByteOf(a, 2) == ByteOf(b, 1) == ByteOf(c, 0);
  }

  /** Writing what was read gives the same bytes. */
  lemma BytesRoundTrip(sector: seq<Byte>, j: nat)
    requires 4 * j + 4 <= |sector|
    ensures WordAt(sector, j) < 0x1_0000_0000
    ensures forall k: nat :: k < 4 ==> ByteOf(WordAt(sector, j), k) == sector[4 * j + k]
  {
    var a: nat, b: nat, c: nat, w3: nat := sector[4 * j], sector[4 * j + 1], sector[4 * j + 2], sector[4 * j + 3];
    var w2 := c + 256 * w3;
    var w1 := b + 256 * w2;
    var w := a + 256 * w1;
    assert w % 256 == a && w / 256 == w1 && w1 % 256 == b && w1 / 256 == w2 && w2 % 256 == c && w2 / 256 == w3;
    assert ByteOf(w, 1) == ByteOf(w1, 0) && ByteOf(w, 2) == ByteOf(w1, 1) == ByteOf(w2, 0);
    assert ByteOf(w, 3) == ByteOf(w1, 2) == ByteOf(w2, 1) == ByteOf(w3, 0);
  }

  type Disk = map<nat, seq<Byte>>

  function Sector(disk: Disk, lba: nat): (r: seq<Byte>)
    ensures |r| == 512
  {
    if lba in disk && |disk[lba]| == 512 then disk[lba] else seq(512, _ => 0)
  }

  /** Every table sector not marked dirty is on disk as cached. */
  ghost predicate Coherent(disk: Disk, reserved: nat, fat: seq<nat>, dirty: seq<bool>) {
    && |fat| == |dirty| * 128
    && forall i :: 0 <= i < |dirty| && !dirty[i] ==> Sector(disk, reserved + i) == TableSector(fat, i)
  }

  lemma SetCoherent(disk: Disk, reserved: nat, fat: seq<nat>, dirty: seq<bool>, c: nat, v: nat)
    requires Coherent(disk, reserved, fat, dirty) && c < |fat|
    ensures Coherent(disk, reserved, fat[c := v], dirty[c / 128 := true])
  {
    var fat2, dirty2 := fat[c := v], dirty[c / 128 := true];
    forall i | 0 <= i < |dirty2| && !dirty2[i] ensures Sector(disk, reserved + i) == TableSector(fat2, i) {
      assert TableSector(fat[c := v], i) == TableSector(fat, i);
    }
  }

  // ---- file data over sectors ------------------------------------------------------------

  function Min(a: nat, b: nat): nat { if a < b then a else b }

  /** A chunk of at most 512 bytes, filled up with zeros. */
  function Pad(s: seq<Byte>): (r: seq<Byte>)
    requires |s| <= 512
    ensures |r| == 512 && r[..|s|] == s
  {
    s + seq(512 - |s|, _ => 0)
  }

  /** The disk after `content` is laid out over the sectors `lbas` in order. */
  ghost function Put(disk: Disk, lbas: seq<nat>, content: seq<Byte>): Disk
    decreases lbas
  {
    if content == [] || lbas == [] then disk
    else
      var take := Min(|content|, 512);
      Put(disk[lbas[0] := Pad(content[..take])], lbas[1..], content[take..])
  }

  /** The first `n` bytes found in the sectors `lbas` in order. */
  ghost function Get(disk: Disk, lbas: seq<nat>, n: nat): (r: seq<Byte>)
    decreases lbas
  {
    if n == 0 || lbas == [] then []
    else
      var take := Min(n, 512);
      Sector(disk, lbas[0])[..take] + Get(disk, lbas[1..], n - take)
  }

  lemma {:induction false} PutFrame(disk: Disk, lbas: seq<nat>, content: seq<Byte>, lba: nat)
    requires lba !in lbas
    ensures Sector(Put(disk, lbas, content), lba) == Sector(disk, lba)
    decreases lbas
  {
    if content != [] && lbas != [] {
      var take := Min(|content|, 512);
      PutFrame(disk[lbas[0] := Pad(content[..take])], lbas[1..], content[take..], lba);
    }
  }

  lemma {:induction false} GetFrame(disk: Disk, disk2: Disk, lbas: seq<nat>, n: nat)
    requires forall x :: x in lbas ==> Sector(disk2, x) == Sector(disk, x)
    ensures Get(disk2, lbas, n) == Get(disk, lbas, n)
    decreases lbas
  {
    if n != 0 && lbas != [] {
      GetFrame(disk, disk2, lbas[1..], n - Min(n, 512));
    }
  }

  /** What was put is what is got. */
  lemma {:induction false} GetPut(disk: Disk, lbas: seq<nat>, content: seq<Byte>)
    requires NoDup(lbas) && |content| <= 512 * |lbas|
    ensures Get(Put(disk, lbas, content), lbas, |content|) == content
    decreases lbas
  {
    if content != [] {
      var take := Min(|content|, 512);
      var disk1 := disk[lbas[0] := Pad(content[..take])];
      GetPut(disk1, lbas[1..], content[take..]);
      PutFrame(disk1, lbas[1..], content[take..], lbas[0]);
      assert content == content[..take] + content[take..];
    }
  }

  lemma {:induction false} PutConcat(disk: Disk, a: seq<nat>, b: seq<nat>, content: seq<Byte>)
    ensures Put(disk, a + b, content) == Put(Put(disk, a, content), b, content[Min(|content|, 512 * |a|)..])
    decreases a
  {
    if a == [] {
      assert a + b == b && content[0..] == content;
    } else if content != [] {
      var take := Min(|content|, 512);
      PutConcat(disk[a[0] := Pad(content[..take])], a[1..], b, content[take..]);
      assert (a + b)[1..] == a[1..] + b;
      assert content[take..][Min(|content[take..]|, 512 * |a[1..]|)..] == content[Min(|content|, 512 * |a|)..];
    }
  }

  lemma Assoc(a: seq<Byte>, b: seq<Byte>, c: seq<Byte>)
    ensures a + (b + c) == a + b + c
  {
  }

  lemma TailConcat(a: seq<nat>, b: seq<nat>)
    requires a != []
    ensures (a + b)[1..] == a[1..] + b && (a + b)[0] == a[0]
  {
  }

  lemma LeftOver(n: nat, take: nat, len: nat)
    requires take == Min(n, 512)
    ensures n - take - Min(n - take, 512 * len) == n - Min(n, 512 * (len + 1))
  {
  }

  lemma {:induction false} GetConcat(disk: Disk, a: seq<nat>, b: seq<nat>, n: nat)
    ensures Get(disk, a + b, n) == Get(disk, a, n) + Get(disk, b, n - Min(n, 512 * |a|))
    decreases a
  {
    if a == [] {
      assert a + b == b;
    } else if n != 0 {
      var take, len, rest := Min(n, 512), |a| - 1, n - Min(n, 512 * |a|);
      GetConcat(disk, a[1..], b, n - take);
      TailConcat(a, b);
      LeftOver(n, take, len);
      assert n - take - Min(n - take, 512 * len) == rest;
      Assoc(Sector(disk, a[0])[..take], Get(disk, a[1..], n - take), Get(disk, b, rest));
    }
  }

  lemma {:induction false} GetLen(disk: Disk, a: seq<nat>, n: nat)
    ensures |Get(disk, a, n)| == Min(n, 512 * |a|)
    decreases a
  {
    if a != [] && n != 0 {
      GetLen(disk, a[1..], n - Min(n, 512));
    }
  }
}
