/** The kernel heap (src/allocator.rs:10-126): a first-fit free list, ordered by
    address, threaded through block headers in raw memory. */
module Heap {
  import opened Wrappers

  const HEADER: nat := 16
  const MIN_ALIGN: nat := 16

  /** A block header in memory; a null pointer is 0. */
  datatype Header = Header(size: nat, next: nat)

  /** One tile of the heap range: a header at `addr` and `size` payload bytes. */
  datatype Block = Block(addr: nat, size: nat, free: bool)

  function End(b: Block): nat { b.addr + HEADER + b.size }

  function Rounded(size: nat): (r: nat)
    ensures r % 16 == 0 && size <= r < size + MIN_ALIGN
  {
    AlignUp(size, 16)
  }

  lemma SumAligned(x: nat, y: nat)
    requires x % 16 == 0 && y % 16 == 0
    ensures (x + y) % 16 == 0 && (x + 16) % 16 == 0
  {
    assert x + y == 16 * (x / 16 + y / 16);
  }

  lemma DiffAligned(x: nat, y: nat)
    requires x % 16 == 0 && y % 16 == 0 && y <= x
    ensures (x - y) % 16 == 0
  {
    assert x - y == 16 * (x / 16 - y / 16);
  }

  // ---- tilings -------------------------------------------------------------------

  /** `bs` tiles [lo, hi) exactly, in address order. */
  ghost predicate Tiles(bs: seq<Block>, lo: nat, hi: nat) {
    if bs == [] then lo == hi
    else bs[0].addr == lo > 0 && lo % 16 == 0 && bs[0].size % 16 == 0 && Tiles(bs[1..], End(bs[0]), hi)
  }

  /** No two neighbouring tiles are both free. */
  ghost predicate Coalesced(bs: seq<Block>) {
    forall i :: 0 <= i < |bs| - 1 ==> !(bs[i].free && bs[i + 1].free)
  }

  lemma {:induction false} TilesConcat(xs: seq<Block>, bs: seq<Block>, lo: nat, mid: nat, hi: nat)
    requires Tiles(xs, lo, mid) && Tiles(bs, mid, hi)
    ensures Tiles(xs + bs, lo, hi)
  {
    if xs == [] {
      assert xs + bs == bs;
    } else {
      TilesConcat(xs[1..], bs, End(xs[0]), mid, hi);
      assert (xs + bs)[1..] == xs[1..] + bs;
    }
  }

  /** A tiling cut before block `i`. */
  lemma {:induction false} TilesCut(bs: seq<Block>, lo: nat, hi: nat, i: nat)
    requires Tiles(bs, lo, hi) && i <= |bs|
    ensures var mid := if i < |bs| then bs[i].addr else hi;
            Tiles(bs[..i], lo, mid) && Tiles(bs[i..], mid, hi) && lo <= mid <= hi
    ensures i < |bs| ==> End(bs[i]) <= hi && bs[i].addr % 16 == 0 && bs[i].size % 16 == 0 && bs[i].addr > 0
    ensures i + 1 < |bs| ==> End(bs[i]) == bs[i + 1].addr
    ensures i + 1 == |bs| ==> End(bs[i]) == hi
  {
    if i == 0 {
      assert bs[..0] == [] && bs[0..] == bs;
      if bs != [] {
        TilesCut(bs[1..], End(bs[0]), hi, 0);
        assert |bs| > 1 ==> bs[1..][0] == bs[1];
      }
    } else {
      TilesCut(bs[1..], End(bs[0]), hi, i - 1);
      assert bs[1..][..i - 1] == bs[..i][1..] && bs[1..][i - 1..] == bs[i..];
    }
  }

  lemma CoalescedConcat(xs: seq<Block>, bs: seq<Block>)
    requires Coalesced(xs) && Coalesced(bs)
    requires xs != [] && bs != [] ==> !(xs[|xs| - 1].free && bs[0].free)
    ensures Coalesced(xs + bs)
  {
    forall i | 0 <= i < |xs + bs| - 1 ensures !((xs + bs)[i].free && (xs + bs)[i + 1].free) {
      if i + 1 < |xs| {
        assert !(xs[i].free && xs[i + 1].free);
      } else if i >= |xs| {
        assert !(bs[i - |xs|].free && bs[i - |xs| + 1].free);
      }
    }
  }

  lemma CoalescedCut(bs: seq<Block>, i: nat)
    requires Coalesced(bs) && i <= |bs|
    ensures Coalesced(bs[..i]) && Coalesced(bs[i..])
  {
    forall j | 0 <= j < |bs[i..]| - 1 ensures !(bs[i..][j].free && bs[i..][j + 1].free) {
      assert !(bs[i + j].free && bs[i + j + 1].free);
    }
  }

  lemma {:induction false} TilesOrdered(bs: seq<Block>, lo: nat, hi: nat, i: nat, j: nat)
    requires Tiles(bs, lo, hi) && i < j < |bs|
    ensures End(bs[i]) <= bs[j].addr
    decreases j
  {
    TilesCut(bs, lo, hi, j - 1);
    if i < j - 1 {
      TilesOrdered(bs, lo, hi, i, j - 1);
    }
  }

  // ---- the abstract heap: what alloc and dealloc mean ----------------------------------

  /** Block `i` is the first free one of at least `n` bytes. */
  ghost predicate FirstFit(bs: seq<Block>, n: nat, i: nat) {
    && i < |bs| && bs[i].free && bs[i].size >= n
    && forall j :: 0 <= j < i ==> !(bs[j].free && bs[j].size >= n)
  }

  ghost predicate NoFit(bs: seq<Block>, n: nat) {
    forall j :: 0 <= j < |bs| ==> !(bs[j].free && bs[j].size >= n)
  }

  function SplitOff(b: Block, n: nat): seq<Block>
    requires b.size >= n
  {
    if b.size >= n + HEADER + MIN_ALIGN then [Block(b.addr, n, false), Block(b.addr + HEADER + n, b.size - n - HEADER, true)]
    else [b.(free := false)]
  }

  /** Block `i` handed out for `n` bytes, the rest split off if it is big enough. */
  function Take(bs: seq<Block>, i: nat, n: nat): seq<Block>
    requires i < |bs| && bs[i].size >= n
  {
    bs[..i] + SplitOff(bs[i], n) + bs[i + 1..]
  }

  /** The neighbours that merge with block `i` when it is freed are lo..hi. */
  function MergeLo(bs: seq<Block>, i: nat): nat
    requires i < |bs|
  {
    if i > 0 && bs[i - 1].free then i - 1 else i
  }

  function MergeHi(bs: seq<Block>, i: nat): nat
    requires i < |bs|
  {
    if i + 1 < |bs| && bs[i + 1].free then i + 2 else i + 1
  }

  /** Block `i` freed and merged with its free neighbours. */
  function Release(bs: seq<Block>, i: nat): seq<Block>
    requires i < |bs| && bs[MergeLo(bs, i)].addr + HEADER <= End(bs[MergeHi(bs, i) - 1])
  {
    var lo, hi := MergeLo(bs, i), MergeHi(bs, i);
    bs[..lo] + [Block(bs[lo].addr, End(bs[hi - 1]) - bs[lo].addr - HEADER, true)] + bs[hi..]
  }

  /** Replacing blocks l..h of a tiling by another tiling of the same range. */
  lemma Splice(bs: seq<Block>, mid: seq<Block>, lo: nat, hi: nat, l: nat, h: nat)
    requires Tiles(bs, lo, hi) && Coalesced(bs) && l < h <= |bs| && mid != []
    requires Tiles(mid, bs[l].addr, End(bs[h - 1])) && Coalesced(mid)
    requires l > 0 ==> !(bs[l - 1].free && mid[0].free)
    requires h < |bs| ==> !(mid[|mid| - 1].free && bs[h].free)
    ensures Tiles(bs[..l] + mid + bs[h..], lo, hi) && Coalesced(bs[..l] + mid + bs[h..])
  {
    TilesCut(bs, lo, hi, l);
    TilesCut(bs, lo, hi, h);
    TilesCut(bs, lo, hi, h - 1);
    TilesConcat(bs[..l], mid, lo, bs[l].addr, End(bs[h - 1]));
    TilesConcat(bs[..l] + mid, bs[h..], lo, End(bs[h - 1]), hi);
    CoalescedCut(bs, l);
    CoalescedCut(bs, h);
    CoalescedConcat(bs[..l], mid);
    CoalescedConcat(bs[..l] + mid, bs[h..]);
  }

  lemma TwoTiles(b: Block, n: nat)
    requires b.addr > 0 && b.addr % 16 == 0 && b.size % 16 == 0 && n % 16 == 0 && b.size >= n + HEADER + MIN_ALIGN
    ensures Tiles(SplitOff(b, n), b.addr, End(b))
  {
    var mid := SplitOff(b, n);
    SumAligned(b.addr, n);
    SumAligned(b.addr + n, 0);
    DiffAligned(b.size, n);
    DiffAligned(b.size - n, 16);
    assert mid[1..] == [mid[1]] && mid[1..][1..] == [];
    assert Tiles(mid[1..], End(mid[0]), End(b));
  }

  lemma TakeTiles(bs: seq<Block>, lo: nat, hi: nat, i: nat, n: nat)
    requires Tiles(bs, lo, hi) && Coalesced(bs) && i < |bs| && bs[i].free && bs[i].size >= n && n % 16 == 0
    ensures Tiles(Take(bs, i, n), lo, hi) && Coalesced(Take(bs, i, n))
  {
    TilesCut(bs, lo, hi, i);
    var mid := SplitOff(bs[i], n);
    if |mid| == 2 {
      TwoTiles(bs[i], n);
    } else {
      assert mid[1..] == [];
    }
    Splice(bs, mid, lo, hi, i, i + 1);
  }

  lemma ReleaseTiles(bs: seq<Block>, lo: nat, hi: nat, i: nat)
    requires Tiles(bs, lo, hi) && Coalesced(bs) && i < |bs| && !bs[i].free
    ensures bs[MergeLo(bs, i)].addr + HEADER <= End(bs[MergeHi(bs, i) - 1])
    ensures Tiles(Release(bs, i), lo, hi) && Coalesced(Release(bs, i))
  {
    var l, h := MergeLo(bs, i), MergeHi(bs, i);
    MergedBlock(bs, lo, hi, i);
    Splice(bs, [Block(bs[l].addr, End(bs[h - 1]) - bs[l].addr - HEADER, true)], lo, hi, l, h);
  }

  /** The merged block covers the range of the blocks it replaces. */
  lemma MergedBlock(bs: seq<Block>, lo: nat, hi: nat, i: nat)
    requires Tiles(bs, lo, hi) && i < |bs|
    ensures var l, h := MergeLo(bs, i), MergeHi(bs, i);
            && bs[l].addr + HEADER <= End(bs[h - 1])
            && Tiles([Block(bs[l].addr, End(bs[h - 1]) - bs[l].addr - HEADER, true)], bs[l].addr, End(bs[h - 1]))
  {
    var l, h := MergeLo(bs, i), MergeHi(bs, i);
    TilesCut(bs, lo, hi, l);
    TilesCut(bs, lo, hi, i);
    TilesCut(bs, lo, hi, h - 1);
    OneTile(bs[l].addr, bs[h - 1].addr, bs[h - 1].size, End(bs[h - 1]) - bs[l].addr - HEADER);
  }

  /** A single block from `lo` to the end of the block at `addr`. */
  lemma OneTile(lo: nat, addr: nat, size: nat, d: nat)
    requires lo > 0 && lo % 16 == 0 && addr % 16 == 0 && size % 16 == 0 && lo <= addr && d == addr + size - lo
    ensures Tiles([Block(lo, d, true)], lo, addr + HEADER + size)
  {
    assert d % 16 == 0 by {
      SumAligned(addr, size);
      DiffAligned(addr + size, lo);
    }
    assert [Block(lo, d, true)][1..] == [];
  }

  /** Distinct blocks have disjoint headers and payloads. */
  lemma PayloadsDisjoint(bs: seq<Block>, lo: nat, hi: nat, i: nat, j: nat)
    requires Tiles(bs, lo, hi) && i < |bs| && j < |bs| && i != j
    ensures End(bs[i]) <= bs[j].addr || End(bs[j]) <= bs[i].addr
    ensures lo <= bs[i].addr && End(bs[i]) <= hi && (bs[i].addr + HEADER) % 16 == 0
  {
    TilesCut(bs, lo, hi, i);
    if i < j {
      TilesOrdered(bs, lo, hi, i, j);
    } else {
      TilesOrdered(bs, lo, hi, j, i);
    }
  }

  ghost predicate AllFree(bs: seq<Block>) { forall i :: 0 <= i < |bs| ==> bs[i].free }

  /** With nothing allocated, a coalesced tiling is the single initial block. */
  lemma AllFreeIsInitial(bs: seq<Block>, lo: nat, hi: nat)
    requires Tiles(bs, lo, hi) && Coalesced(bs) && lo < hi && AllFree(bs)
    ensures hi >= lo + HEADER && bs == [Block(lo, hi - lo - HEADER, true)]
  {
  }

  // ---- the list in memory --------------------------------------------------------------

  type Mem = map<nat, Header>

  /** The addresses of the free blocks, in address order. */
  ghost function FreeList(bs: seq<Block>): seq<nat> {
    if bs == [] then [] else (if bs[0].free then [bs[0].addr] else []) + FreeList(bs[1..])
  }

  ghost function At(l: seq<nat>, k: nat): nat { if k < |l| then l[k] else 0 }

  /** Following `next` from `head` visits exactly `l` and ends in null. */
  ghost predicate Linked(mem: Mem, head: nat, l: seq<nat>)
    decreases l
  {
    if l == [] then head == 0 else head == l[0] > 0 && head in mem && Linked(mem, mem[head].next, l[1..])
  }

  /** Every block's header in memory holds its size. */
  ghost predicate Stored(mem: Mem, bs: seq<Block>) {
    forall i :: 0 <= i < |bs| ==> bs[i].addr in mem && mem[bs[i].addr].size == bs[i].size
  }

  ghost predicate Increasing(l: seq<nat>) { forall a, b :: 0 <= a < b < |l| ==> l[a] < l[b] }

  lemma {:induction false} FreeListConcat(xs: seq<Block>, bs: seq<Block>)
    ensures FreeList(xs + bs) == FreeList(xs) + FreeList(bs)
  {
    if xs == [] {
      assert xs + bs == bs;
    } else {
      var head := if xs[0].free then [xs[0].addr] else [];
      FreeListConcat(xs[1..], bs);
      assert (xs + bs)[1..] == xs[1..] + bs && (xs + bs)[0] == xs[0];
      NatsAssoc(head, FreeList(xs[1..]), FreeList(bs));
    }
  }

  lemma NatsAssoc(a: seq<nat>, b: seq<nat>, c: seq<nat>)
    ensures a + b + c == a + (b + c)
  {
  }

  lemma FreeListAround(bs: seq<Block>, i: nat)
    requires i < |bs|
    ensures FreeList(bs) == FreeList(bs[..i]) + (if bs[i].free then [bs[i].addr] else []) + FreeList(bs[i + 1..])
  {
    FreeListConcat(bs[..i], bs[i..]);
    assert bs == bs[..i] + bs[i..] && bs[i..][1..] == bs[i + 1..];
  }

  /** The free list is increasing, within the tiled range, and never null. */
  lemma {:induction false} FreeListIncreasing(bs: seq<Block>, lo: nat, hi: nat)
    requires Tiles(bs, lo, hi)
    ensures Increasing(FreeList(bs)) && forall k :: 0 <= k < |FreeList(bs)| ==> lo <= FreeList(bs)[k] < hi && FreeList(bs)[k] > 0
    ensures lo <= hi
  {
    if bs != [] {
      FreeListIncreasing(bs[1..], End(bs[0]), hi);
    }
  }

  /** The block behind the `k`-th element of the free list. */
  lemma {:induction false} FreeBlock(bs: seq<Block>, k: nat) returns (i: nat)
    requires k < |FreeList(bs)|
    ensures i < |bs| && bs[i].free && bs[i].addr == FreeList(bs)[k] && |FreeList(bs[..i])| == k
    ensures FreeList(bs)[..k] == FreeList(bs[..i]) && FreeList(bs)[k + 1..] == FreeList(bs[i + 1..])
  {
    if bs[0].free && k == 0 {
      i := 0;
      assert bs[..0] == [];
    } else {
      var d := if bs[0].free then 1 else 0;
      i := FreeBlock(bs[1..], k - d);
      i := i + 1;
      FrontFree(bs, i);
    }
  }

  lemma FrontFree(bs: seq<Block>, i: nat)
    requires 0 < i <= |bs|
    ensures FreeList(bs[..i]) == (if bs[0].free then [bs[0].addr] else []) + FreeList(bs[1..][..i - 1])
    ensures bs[1..][i - 1..] == bs[i..] && (i < |bs| ==> bs[1..][i..] == bs[i + 1..])
  {
    assert bs[1..][..i - 1] == bs[..i][1..] && bs[..i][0] == bs[0];
  }

  /** Only the `next` fields along the list matter. */
  lemma {:induction false} LinkedFrame(mem: Mem, mem2: Mem, head: nat, l: seq<nat>)
    requires Linked(mem, head, l) && forall x :: x in l && x in mem ==> x in mem2 && mem2[x].next == mem[x].next
    ensures Linked(mem2, head, l)
    decreases l
  {
    if l != [] {
      LinkedFrame(mem, mem2, mem[head].next, l[1..]);
    }
  }

  lemma {:induction false} LinkedAt(mem: Mem, head: nat, l: seq<nat>, k: nat)
    requires Linked(mem, head, l) && k < |l|
    ensures l[k] > 0 && l[k] in mem && mem[l[k]].next == At(l, k + 1)
    ensures Linked(mem, l[k], l[k..]) && Linked(mem, At(l, k + 1), l[k + 1..])
    decreases l
  {
    if k == 0 {
      assert l[0..] == l;
      assert |l| > 1 ==> mem[head].next == l[1..][0];
    } else {
      LinkedAt(mem, mem[head].next, l[1..], k - 1);
      assert l[1..][k - 1..] == l[k..] && l[1..][k..] == l[k + 1..];
    }
  }

  /** Redirecting the `k`-th element to another list `l2`. */
  lemma {:induction false} SetNext(mem: Mem, head: nat, l: seq<nat>, k: nat, h: Header, l2: seq<nat>)
    requires Linked(mem, head, l) && Increasing(l) && k < |l|
    requires Linked(mem, h.next, l2) && l[k] !in l2
    ensures Linked(mem[l[k] := h], head, l[..k + 1] + l2)
    decreases l
  {
    var mem2 := mem[l[k] := h];
    if k == 0 {
      LinkedFrame(mem, mem2, h.next, l2);
      assert (l[..1] + l2)[1..] == l2;
    } else {
      SetNext(mem, mem[head].next, l[1..], k - 1, h, l2);
      assert l[1..][..k] + l2 == (l[..k + 1] + l2)[1..];
      assert l[0] != l[k];
    }
  }

  lemma {:induction false} FreeInList(bs: seq<Block>, j: nat)
    requires j < |bs|
    ensures bs[j].free ==> bs[j].addr in FreeList(bs)
  {
    if j > 0 {
      FreeInList(bs[1..], j - 1);
    }
  }

  /** An address strictly inside a block is no block's address. */
  lemma Inside(bs: seq<Block>, lo: nat, hi: nat, i: nat, x: nat)
    requires Tiles(bs, lo, hi) && i < |bs| && bs[i].addr < x < End(bs[i])
    ensures forall j :: 0 <= j < |bs| ==> bs[j].addr != x
    ensures x !in FreeList(bs)
  {
    forall j | 0 <= j < |bs| ensures bs[j].addr != x {
      if j != i {
        PayloadsDisjoint(bs, lo, hi, i, j);
      }
    }
    if x in FreeList(bs) {
      var k :| 0 <= k < |FreeList(bs)| && FreeList(bs)[k] == x;
      var j := FreeBlock(bs, k);
    }
  }

  /** Distinct blocks have distinct addresses. */
  lemma AddrsDistinct(bs: seq<Block>, lo: nat, hi: nat, i: nat)
    requires Tiles(bs, lo, hi) && i < |bs|
    ensures forall j :: 0 <= j < |bs| && j != i ==> bs[j].addr != bs[i].addr
  {
    forall j | 0 <= j < |bs| && j != i ensures bs[j].addr != bs[i].addr {
      PayloadsDisjoint(bs, lo, hi, i, j);
    }
  }

  /** What `alloc` writes once block `i`, the `k`-th of the free list, is chosen. */
  function AllocMem(mem: Mem, cur: nat, prev: nat, n: nat): (r: Mem)
    requires cur in mem && (prev != 0 ==> prev in mem) && mem[cur].size >= n
  {
    var rem := cur + HEADER + n;
    var split := mem[cur].size >= n + HEADER + MIN_ALIGN;
    var m1 := if split then mem[rem := Header(mem[cur].size - n - HEADER, mem[cur].next)][cur := Header(n, rem)] else mem;
    if prev == 0 then m1 else m1[prev := Header(m1[prev].size, m1[cur].next)]
  }

  function AllocHead(mem: Mem, head: nat, cur: nat, prev: nat, n: nat): nat
    requires cur in mem
  {
    if prev != 0 then head else if mem[cur].size >= n + HEADER + MIN_ALIGN then cur + HEADER + n else mem[cur].next
  }

  lemma TakeList(bs: seq<Block>, i: nat, n: nat)
    requires i < |bs| && bs[i].size >= n
    ensures FreeList(Take(bs, i, n)) == FreeList(bs[..i])
              + (if bs[i].size >= n + HEADER + MIN_ALIGN then [bs[i].addr + HEADER + n] else []) + FreeList(bs[i + 1..])
  {
    var mid := SplitOff(bs[i], n);
    FreeListConcat(bs[..i], mid);
    FreeListConcat(bs[..i] + mid, bs[i + 1..]);
    assert mid[1..] == if |mid| == 2 then [mid[1]] else [];
    assert |mid| == 2 ==> FreeList(mid[1..]) == [mid[1].addr] by {
      assert |mid| == 2 ==> mid[1..][1..] == [];
    }
  }

  /** `alloc` leaves a well-linked list of the new free blocks. */
  lemma AllocLinked(mem: Mem, head: nat, l: seq<nat>, k: nat, n: nat, prev: nat)
    requires Linked(mem, head, l) && Increasing(l) && k < |l| && l[k] in mem && mem[l[k]].size >= n
    requires prev == (if k == 0 then 0 else l[k - 1]) && (mem[l[k]].size >= n + HEADER + MIN_ALIGN ==> l[k] + HEADER + n !in l)
    ensures prev != 0 ==> prev in mem
    ensures Linked(AllocMem(mem, l[k], prev, n), AllocHead(mem, head, l[k], prev, n),
                   l[..k] + (if mem[l[k]].size >= n + HEADER + MIN_ALIGN then [l[k] + HEADER + n] else []) + l[k + 1..])
  {
    if k > 0 {
      LinkedAt(mem, head, l, k - 1);
    }
    if mem[l[k]].size >= n + HEADER + MIN_ALIGN {
      AllocSplitLinked(mem, head, l, k, n, prev);
    } else {
      AllocUnlink(mem, head, l, k);
    }
  }

  lemma AllocSplitLinked(mem: Mem, head: nat, l: seq<nat>, k: nat, n: nat, prev: nat)
    requires Linked(mem, head, l) && Increasing(l) && k < |l| && l[k] in mem && mem[l[k]].size >= n + HEADER + MIN_ALIGN
    requires l[k] + HEADER + n !in l && prev == (if k == 0 then 0 else l[k - 1]) && (k > 0 ==> prev > 0 && prev in mem)
    ensures Linked(AllocMem(mem, l[k], prev, n), AllocHead(mem, head, l[k], prev, n), l[..k] + [l[k] + HEADER + n] + l[k + 1..])
  {
    var cur, rem := l[k], l[k] + HEADER + n;
    LinkedAt(mem, head, l, k);
    var m0 := mem[rem := Header(mem[cur].size - n - HEADER, mem[cur].next)];
    var tail := [rem] + l[k + 1..];
    RemainderLinked(mem, m0, head, l, k, rem, m0[rem], tail);
    AllocRelink(m0, head, l, k, Header(n, rem), rem, tail);
    JoinedAt(l, k, rem);
    assert k > 0 ==> l[k - 1] != cur && l[k - 1] != rem;
  }

  /** The remainder's header in front of the rest of the list. */
  lemma RemainderLinked(mem: Mem, m0: Mem, head: nat, l: seq<nat>, k: nat, rem: nat, h: Header, tail: seq<nat>)
    requires Linked(mem, head, l) && k < |l| && l[k] in mem && rem !in l && rem > 0 && m0 == mem[rem := h] && h.next == mem[l[k]].next
    requires tail == [rem] + l[k + 1..]
    ensures Linked(m0, head, l) && Linked(m0, rem, tail)
  {
    LinkedAt(mem, head, l, k);
    LinkedFrame(mem, m0, head, l);
    LinkedFrame(mem, m0, At(l, k + 1), l[k + 1..]);
    assert tail[1..] == l[k + 1..];
  }

  lemma JoinedAt(l: seq<nat>, k: nat, rem: nat)
    requires k < |l|
    ensures l[..k] + [rem] + l[k + 1..] == l[..k] + ([rem] + l[k + 1..])
    ensures k == 0 ==> l[..k] + [rem] + l[k + 1..] == [rem] + l[k + 1..]
  {
  }

  /** Putting `tail` in place of the list from its `k`-th block on, which gets header `h`. */
  lemma AllocRelink(m0: Mem, head: nat, l: seq<nat>, k: nat, h: Header, rem: nat, tail: seq<nat>)
    requires Linked(m0, head, l) && Increasing(l) && k < |l| && Linked(m0, rem, tail) && tail == [rem] + l[k + 1..] && rem !in l
    ensures k == 0 ==> Linked(m0[l[k] := h], rem, tail)
    ensures k > 0 ==> l[k - 1] in m0 && l[k - 1] > 0
                      && Linked(m0[l[k] := h][l[k - 1] := Header(m0[l[k - 1]].size, rem)], head, l[..k] + tail)
  {
    if k == 0 {
      LinkedFrame(m0, m0[l[k] := h], rem, tail);
    } else {
      RelinkLater(m0, head, l, k, h, rem, tail);
    }
  }

  lemma RelinkLater(m0: Mem, head: nat, l: seq<nat>, k: nat, h: Header, rem: nat, tail: seq<nat>)
    requires Linked(m0, head, l) && Increasing(l) && 0 < k < |l| && Linked(m0, rem, tail) && tail == [rem] + l[k + 1..] && rem !in l
    ensures l[k - 1] in m0 && l[k - 1] > 0
    ensures Linked(m0[l[k] := h][l[k - 1] := Header(m0[l[k - 1]].size, rem)], head, l[..k] + tail)
  {
    LinkedAt(m0, head, l, k - 1);
    var p := Header(m0[l[k - 1]].size, rem);
    SetNext(m0, head, l, k - 1, p, tail);
    NotInJoined(l, k, rem);
    LinkedFrame(m0[l[k - 1] := p], m0[l[k] := h][l[k - 1] := p], head, l[..k] + tail);
  }

  lemma NotInJoined(l: seq<nat>, k: nat, rem: nat)
    requires Increasing(l) && 0 < k < |l| && rem !in l
    ensures l[k] !in l[..k] + ([rem] + l[k + 1..]) && l[k] != l[k - 1]
  {
    assert l[k] in l;
  }

  lemma AllocUnlink(mem: Mem, head: nat, l: seq<nat>, k: nat)
    requires Linked(mem, head, l) && Increasing(l) && k < |l|
    ensures l[k] in mem
    ensures k == 0 ==> Linked(mem, mem[l[k]].next, l[..k] + [] + l[k + 1..])
    ensures k > 0 ==> l[k - 1] in mem && l[k - 1] > 0
                      && Linked(mem[l[k - 1] := Header(mem[l[k - 1]].size, mem[l[k]].next)], head, l[..k] + [] + l[k + 1..])
  {
    LinkedAt(mem, head, l, k);
    assert l[..k] + [] + l[k + 1..] == l[..k] + l[k + 1..];
    if k > 0 {
      LinkedAt(mem, head, l, k - 1);
      SetNext(mem, head, l, k - 1, Header(mem[l[k - 1]].size, mem[l[k]].next), l[k + 1..]);
    } else {
      assert l[..0] + l[1..] == l[1..];
    }
  }

  lemma AllocStored(mem: Mem, bs: seq<Block>, lo: nat, hi: nat, i: nat, n: nat, prev: nat)
    requires Tiles(bs, lo, hi) && Stored(mem, bs) && i < |bs| && bs[i].size >= n && (prev != 0 ==> prev in mem && prev != bs[i].addr)
    requires prev != bs[i].addr + HEADER + n || bs[i].size < n + HEADER + MIN_ALIGN
    ensures bs[i].addr in mem && mem[bs[i].addr].size == bs[i].size
    ensures Stored(AllocMem(mem, bs[i].addr, prev, n), Take(bs, i, n))
  {
    var ts, m2 := Take(bs, i, n), AllocMem(mem, bs[i].addr, prev, n);
    var d := |SplitOff(bs[i], n)|;
    AddrsDistinct(bs, lo, hi, i);
    if d == 2 {
      Inside(bs, lo, hi, i, bs[i].addr + HEADER + n);
    }
    forall j | 0 <= j < |ts| ensures ts[j].addr in m2 && m2[ts[j].addr].size == ts[j].size {
      if j < i {
        assert ts[j] == bs[j];
      } else if j >= i + d {
        assert ts[j] == bs[j - d + 1];
      }
    }
  }

  // ---- freeing -----------------------------------------------------------------------

  lemma {:induction false} LinkedTail(mem: Mem, head: nat, l: seq<nat>, k: nat)
    requires Linked(mem, head, l) && k <= |l|
    ensures Linked(mem, At(l, k), l[k..])
    decreases l
  {
    if k == 0 {
      assert l[0..] == l;
    } else {
      LinkedTail(mem, mem[head].next, l[1..], k - 1);
      assert l[1..][k - 1..] == l[k..];
    }
  }

  /** The block linked in between `prev` and `cur`. */
  function InsertMem(mem: Mem, block: nat, prev: nat, cur: nat): Mem
    requires block in mem && (prev != 0 ==> prev in mem)
  {
    var m := mem[block := Header(mem[block].size, cur)];
    if prev == 0 then m else m[prev := Header(m[prev].size, block)]
  }

  /** Then merged with the next block if that one starts where it ends. */
  function MergeNextMem(mem: Mem, block: nat, cur: nat): Mem
    requires block in mem && (cur != 0 ==> cur in mem)
  {
    if cur != 0 && block + HEADER + mem[block].size == cur
    then mem[block := Header(mem[block].size + HEADER + mem[cur].size, mem[cur].next)]
    else mem
  }

  /** Then merged into the previous block if it starts where that one ends. */
  function MergePrevMem(mem: Mem, block: nat, prev: nat): Mem
    requires block in mem && (prev != 0 ==> prev in mem)
  {
    if prev != 0 && prev + HEADER + mem[prev].size == block
    then mem[prev := Header(mem[prev].size + HEADER + mem[block].size, mem[block].next)]
    else mem
  }

  lemma InsertLinked(mem: Mem, head: nat, l: seq<nat>, k: nat, block: nat, prev: nat)
    requires Linked(mem, head, l) && Increasing(l) && k <= |l| && block in mem && block > 0 && block !in l
    requires prev == (if k == 0 then 0 else l[k - 1])
    ensures prev != 0 ==> prev in mem
    ensures Linked(InsertMem(mem, block, prev, At(l, k)), if k == 0 then block else head, l[..k] + [block] + l[k..])
  {
    var m := mem[block := Header(mem[block].size, At(l, k))];
    var tail := [block] + l[k..];
    LinkedTail(mem, head, l, k);
    LinkedFrame(mem, m, At(l, k), l[k..]);
    assert tail[1..] == l[k..];
    assert l[..k] + [block] + l[k..] == l[..k] + tail;
    if k == 0 {
      assert l[..0] + tail == tail;
    } else {
      LinkedAt(mem, head, l, k - 1);
      LinkedFrame(mem, m, head, l);
      SetNext(m, head, l, k - 1, Header(m[prev].size, block), tail);
    }
  }

  /** Element `k` of a list swallowing its successor. */
  lemma SwallowNext(mem: Mem, head: nat, l: seq<nat>, k: nat, size: nat)
    requires Linked(mem, head, l) && Increasing(l) && k + 1 < |l|
    ensures l[k + 1] in mem && Linked(mem[l[k] := Header(size, mem[l[k + 1]].next)], head, l[..k + 1] + l[k + 2..])
  {
    LinkedAt(mem, head, l, k + 1);
    SetNext(mem, head, l, k, Header(size, mem[l[k + 1]].next), l[k + 2..]);
  }

  /** Where the freed block's address falls in the free list. */
  lemma FreePlace(bs: seq<Block>, lo: nat, hi: nat, i: nat) returns (k: nat)
    requires Tiles(bs, lo, hi) && i < |bs| && !bs[i].free
    ensures var l := FreeList(bs);
            && k <= |l| && l[..k] == FreeList(bs[..i]) && l[k..] == FreeList(bs[i + 1..]) && bs[i].addr !in l
            && (forall j :: 0 <= j < k ==> l[j] < bs[i].addr) && (forall j :: k <= j < |l| ==> l[j] > bs[i].addr)
  {
    var l := FreeList(bs);
    k := |FreeList(bs[..i])|;
    FreeListAround(bs, i);
    TilesCut(bs, lo, hi, i);
    FreeListIncreasing(bs[..i], lo, bs[i].addr);
    assert bs[i..][1..] == bs[i + 1..];
    FreeListIncreasing(bs[i + 1..], End(bs[i]), hi);
    assert l == FreeList(bs[..i]) + FreeList(bs[i + 1..]);
    forall j | k <= j < |l| ensures l[j] > bs[i].addr {
      assert l[j] == FreeList(bs[i + 1..])[j - k];
    }
  }

  /** The next free block in the list touches block `i` exactly when the next block is
      free. */
  lemma NextTouches(bs: seq<Block>, lo: nat, hi: nat, i: nat)
    requires Tiles(bs, lo, hi) && i < |bs|
    ensures var cur := At(FreeList(bs[i + 1..]), 0);
            (cur != 0 && End(bs[i]) == cur) <==> (i + 1 < |bs| && bs[i + 1].free)
    ensures i + 1 < |bs| && bs[i + 1].free ==>
              At(FreeList(bs[i + 1..]), 0) == bs[i + 1].addr && FreeList(bs[i + 1..])[1..] == FreeList(bs[i + 2..])
  {
    TilesCut(bs, lo, hi, i);
    if i + 1 < |bs| {
      TilesCut(bs, lo, hi, i + 1);
      var rest := bs[i + 1..];
      assert rest[0] == bs[i + 1] && rest[1..] == bs[i + 2..];
      FreeListIncreasing(rest[1..], End(rest[0]), hi);
    }
  }

  /** The previous free block in the list touches block `i` exactly when the previous
      block is free. */
  lemma PrevTouches(mem: Mem, bs: seq<Block>, lo: nat, hi: nat, i: nat)
    requires Tiles(bs, lo, hi) && i < |bs| && Stored(mem, bs)
    ensures var l := FreeList(bs[..i]);
            (l != [] && l[|l| - 1] in mem && l[|l| - 1] + HEADER + mem[l[|l| - 1]].size == bs[i].addr) <==> (i > 0 && bs[i - 1].free)
    ensures i > 0 && bs[i - 1].free ==> FreeList(bs[..i]) == FreeList(bs[..i - 1]) + [bs[i - 1].addr]
  {
    var l := FreeList(bs[..i]);
    if i > 0 && bs[i - 1].free {
      TilesCut(bs, lo, hi, i - 1);
      FreeListAround(bs[..i], i - 1);
      assert bs[..i][..i - 1] == bs[..i - 1] && bs[..i][i..] == [];
    } else if l != [] && l[|l| - 1] in mem && l[|l| - 1] + HEADER + mem[l[|l| - 1]].size == bs[i].addr {
      var j := FreeBlock(bs[..i], |l| - 1);
      assert bs[..i][j] == bs[j];
      TilesOrdered(bs, lo, hi, j, i);
      if j + 1 < i {
        TilesOrdered(bs, lo, hi, j, j + 1);
        TilesOrdered(bs, lo, hi, j + 1, i);
      }
    }
  }

  lemma ReleaseList(bs: seq<Block>, i: nat)
    requires i < |bs| && bs[MergeLo(bs, i)].addr + HEADER <= End(bs[MergeHi(bs, i) - 1])
    ensures FreeList(Release(bs, i)) == FreeList(bs[..MergeLo(bs, i)]) + [bs[MergeLo(bs, i)].addr] + FreeList(bs[MergeHi(bs, i)..])
  {
    var l, h := MergeLo(bs, i), MergeHi(bs, i);
    var mid := [Block(bs[l].addr, End(bs[h - 1]) - bs[l].addr - HEADER, true)];
    FreeListConcat(bs[..l], mid);
    FreeListConcat(bs[..l] + mid, bs[h..]);
    assert mid[1..] == [];
  }

  /** What `dealloc` writes, as one update of memory. */
  function DeallocMem(mem: Mem, block: nat, prev: nat, cur: nat): Mem
    requires block in mem && (prev != 0 ==> prev in mem) && (cur != 0 ==> cur in mem)
  {
    MergePrevMem(MergeNextMem(InsertMem(mem, block, prev, cur), block, cur), block, prev)
  }

  lemma MergeNextLinked(mem: Mem, head: nat, p: seq<nat>, block: nat, r: seq<nat>, cur: nat)
    requires Linked(mem, head, p + [block] + r) && Increasing(p + [block] + r) && block in mem && cur == At(r, 0) && (cur != 0 ==> cur in mem)
    ensures var next := cur != 0 && block + HEADER + mem[block].size == cur;
            Linked(MergeNextMem(mem, block, cur), head, p + [block] + (if next then r[1..] else r))
  {
    if cur != 0 && block + HEADER + mem[block].size == cur {
      var a := p + [block] + r;
      assert a[|p|] == block && a[|p| + 1] == cur && a[..|p| + 1] == p + [block] && a[|p| + 2..] == r[1..];
      SwallowNext(mem, head, a, |p|, mem[block].size + HEADER + mem[cur].size);
    }
  }

  lemma MergePrevLinked(mem: Mem, head: nat, p: seq<nat>, block: nat, t: seq<nat>, prev: nat)
    requires Linked(mem, head, p + [block] + t) && Increasing(p + [block] + t) && block in mem
    requires prev == (if p == [] then 0 else p[|p| - 1]) && (prev != 0 ==> prev in mem)
    ensures var back := prev != 0 && prev + HEADER + mem[prev].size == block;
            Linked(MergePrevMem(mem, block, prev), head, if back then p + t else p + [block] + t)
  {
    if prev != 0 && prev + HEADER + mem[prev].size == block {
      var b := p + [block] + t;
      assert b[|p| - 1] == prev && b[|p|] == block && b[..|p|] == p && b[|p| + 1..] == t;
      SwallowNext(mem, head, b, |p| - 1, mem[prev].size + HEADER + mem[block].size);
    }
  }

  lemma IncreasingDrop(p: seq<nat>, block: nat, r: seq<nat>)
    requires Increasing(p + [block] + r) && r != []
    ensures Increasing(p + [block] + r[1..])
  {
    var a, b := p + [block] + r, p + [block] + r[1..];
    forall x, y | 0 <= x < y < |b| ensures b[x] < b[y] {
      assert b[x] == a[if x <= |p| then x else x + 1] && b[y] == a[if y <= |p| then y else y + 1];
    }
  }

  /** Sizes in memory after the three updates. */
  lemma DeallocSizes(mem: Mem, block: nat, prev: nat, cur: nat)
    requires block in mem && (prev != 0 ==> prev in mem && prev != block) && (cur != 0 ==> cur in mem && cur != block && cur != prev)
    ensures var next := cur != 0 && block + HEADER + mem[block].size == cur;
            var back := prev != 0 && prev + HEADER + mem[prev].size == block;
            var size := mem[block].size + (if next then HEADER + mem[cur].size else 0);
            var m := DeallocMem(mem, block, prev, cur);
            && (forall x :: x in mem && x != block && (prev == 0 || x != prev) ==> x in m && m[x].size == mem[x].size)
            && (!back ==> block in m && m[block].size == size)
            && (prev != 0 ==> prev in m && m[prev].size == if back then mem[prev].size + HEADER + size else mem[prev].size)
  {
  }

  /** After both merges the list is the free blocks of the released tiling, `p` those
      before the freed block and `r` those after it. */
  lemma DeallocLinked(mem: Mem, head: nat, p: seq<nat>, r: seq<nat>, block: nat, prev: nat, cur: nat)
    requires Linked(mem, head, p + r) && Increasing(p + r) && Increasing(p + [block] + r) && block in mem && block > 0 && block !in p + r
    requires prev == (if p == [] then 0 else p[|p| - 1]) && cur == At(r, 0)
    ensures (prev != 0 ==> prev in mem && prev != block) && (cur != 0 ==> cur in mem && cur != block && cur != prev)
    ensures var next := cur != 0 && block + HEADER + mem[block].size == cur;
            var back := prev != 0 && prev + HEADER + mem[prev].size == block;
            var t := if next then r[1..] else r;
            Linked(DeallocMem(mem, block, prev, cur), if p == [] then block else head, if back then p + t else p + [block] + t)
  {
    var l, k := p + r, |p|;
    assert l[..k] == p && l[k..] == r && At(l, k) == cur && (p != [] ==> l[k - 1] == prev);
    InsertLinked(mem, head, l, k, block, prev);
    if r != [] {
      LinkedAt(mem, head, l, k);
    }
    var h2, m2 := if p == [] then block else head, InsertMem(mem, block, prev, cur);
    MergeNextLinked(m2, h2, p, block, r, cur);
    var next := cur != 0 && block + HEADER + mem[block].size == cur;
    if next {
      IncreasingDrop(p, block, r);
    }
    MergePrevLinked(MergeNextMem(m2, block, cur), h2, p, block, if next then r[1..] else r, prev);
  }

  /** After both merges every block of the released tiling has its size in memory. */
  lemma DeallocStored(mem: Mem, m: Mem, bs: seq<Block>, lo: nat, hi: nat, i: nat, prev: nat)
    requires Tiles(bs, lo, hi) && Stored(mem, bs) && i < |bs|
    requires bs[MergeLo(bs, i)].addr + HEADER <= End(bs[MergeHi(bs, i) - 1])
    requires i > 0 && bs[i - 1].free ==> prev == bs[i - 1].addr
    requires forall x :: x in mem && x != bs[i].addr && x != prev ==> x in m && m[x].size == mem[x].size
    requires var size := bs[i].size + (if i + 1 < |bs| && bs[i + 1].free then HEADER + bs[i + 1].size else 0);
             if i > 0 && bs[i - 1].free then prev in m && m[prev].size == bs[i - 1].size + HEADER + size
             else bs[i].addr in m && m[bs[i].addr].size == size && (prev in mem ==> prev in m && m[prev].size == mem[prev].size)
    ensures Stored(m, Release(bs, i))
  {
    var l, h := MergeLo(bs, i), MergeHi(bs, i);
    var ts := Release(bs, i);
    TilesCut(bs, lo, hi, i);
    if i > 0 {
      TilesCut(bs, lo, hi, i - 1);
    }
    AddrsDistinct(bs, lo, hi, i);
    AddrsDistinct(bs, lo, hi, l);
    forall j | 0 <= j < |ts| ensures ts[j].addr in m && m[ts[j].addr].size == ts[j].size {
      if j < l {
        assert ts[j] == bs[j] && bs[j].addr in mem;
      } else if j > l {
        var q := j - l - 1 + h;
        assert ts[j] == bs[q] && q != i && bs[q].addr in mem;
      }
    }
  }

  class FreeListAllocator {
    var head: nat
    var mem: Mem
    ghost var blocks: seq<Block>
    ghost var lo: nat
    ghost var hi: nat

    ghost predicate Valid()
      reads this
    {
      && Tiles(blocks, lo, hi) && lo < hi && Coalesced(blocks)
      && Stored(mem, blocks) && Linked(mem, head, FreeList(blocks))
    }

    /** One free block over [start, end). */
    constructor (start: nat, end: nat)
      requires 0 < start && start % 16 == 0 && end % 16 == 0 && start + HEADER <= end
      ensures Valid() && lo == start && hi == end && blocks == [Block(start, end - start - HEADER, true)]
    {
      mem := map[start := Header(end - start - HEADER, 0)];
      head := start;
      lo, hi := start, end;
      blocks := [Block(start, end - start - HEADER, true)];
      new;
      DiffAligned(end, start);
      DiffAligned(end - start, 16);
      assert blocks[1..] == [];
    }

    /** First fit. Null exactly when no free block is large enough; otherwise the
        lowest one that is, with the excess split off, and a payload aligned to 16. */
    method Alloc(size: nat) returns (p: nat, ghost i: nat)
      requires Valid()
      modifies this
      ensures Valid() && lo == old(lo) && hi == old(hi)
      ensures p == 0 <==> NoFit(old(blocks), Rounded(size))
      ensures p == 0 ==> blocks == old(blocks)
      ensures p != 0 ==>
                && FirstFit(old(blocks), Rounded(size), i) && p == old(blocks)[i].addr + HEADER && p % 16 == 0
                && blocks == Take(old(blocks), i, Rounded(size))
    {
      var n := Rounded(size);
      i, p := 0, 0;
      var prev, cur, k := Find(n, FreeList(blocks));
      if cur != 0 {
        i := AllocStep(mem, head, blocks, lo, hi, k, n, prev);
        Carve(cur, prev, n);
        blocks := Take(blocks, i, n);
        p := cur + HEADER;
      } else {
        NothingFits(mem, blocks, n);
      }
    }

    /** The first `k` blocks of the list are smaller than `n`. */
    static ghost predicate Small(mem: Mem, l: seq<nat>, k: nat, n: nat) {
      k <= |l| && forall j :: 0 <= j < k ==> l[j] in mem && mem[l[j]].size < n
    }

    /** The list walk: the first free block of at least `n` bytes and its
        predecessor in the list. */
    method Find(n: nat, ghost l: seq<nat>) returns (prev: nat, cur: nat, ghost k: nat)
      requires Linked(mem, head, l)
      ensures k <= |l| && cur == At(l, k) && prev == (if k == 0 then 0 else l[k - 1])
      ensures Small(mem, l, k, n)
      ensures if k < |l| then cur != 0 && cur in mem && mem[cur].size >= n else cur == 0
    {
      prev, cur, k := 0, head, 0;
      while cur != 0
        invariant k <= |l| && cur == At(l, k) && prev == (if k == 0 then 0 else l[k - 1])
        invariant Small(mem, l, k, n) && Linked(mem, cur, l[k..])
        decreases |l| - k
      {
        LinkedAt(mem, head, l, k);
        if mem[cur].size >= n {
          return;
        }
        prev := cur;
        cur := mem[cur].next;
        k := k + 1;
      }
    }

    /** Splits the chosen block if it is big enough and takes it off the list. */
    method Carve(cur: nat, prev: nat, n: nat)
      requires cur in mem && mem[cur].size >= n && (prev != 0 ==> prev in mem)
      modifies `mem, `head
      ensures mem == AllocMem(old(mem), cur, prev, n) && head == AllocHead(old(mem), old(head), cur, prev, n)
    {
      if mem[cur].size >= n + HEADER + MIN_ALIGN {
        var rem := cur + HEADER + n;
        mem := mem[rem := Header(mem[cur].size - n - HEADER, mem[cur].next)];
        mem := mem[cur := Header(n, rem)];
      }
      if prev == 0 {
        head := mem[cur].next;
      } else {
        mem := mem[prev := Header(mem[prev].size, mem[cur].next)];
      }
    }

    /** Everything `alloc` keeps and promises once the `k`-th free block fits. */
    static lemma AllocStep(mem: Mem, head: nat, bs: seq<Block>, lo: nat, hi: nat, k: nat, n: nat, prev: nat) returns (i: nat)
      requires Tiles(bs, lo, hi) && Coalesced(bs) && Stored(mem, bs) && Linked(mem, head, FreeList(bs)) && n % 16 == 0
      requires k < |FreeList(bs)| && prev == (if k == 0 then 0 else FreeList(bs)[k - 1])
      requires FreeList(bs)[k] in mem && mem[FreeList(bs)[k]].size >= n
      requires Small(mem, FreeList(bs), k, n)
      ensures FirstFit(bs, n, i) && !NoFit(bs, n) && bs[i].addr == FreeList(bs)[k] && (bs[i].addr + HEADER) % 16 == 0
      ensures prev != 0 ==> prev in mem
      ensures Tiles(Take(bs, i, n), lo, hi) && Coalesced(Take(bs, i, n))
      ensures Stored(AllocMem(mem, bs[i].addr, prev, n), Take(bs, i, n))
      ensures Linked(AllocMem(mem, bs[i].addr, prev, n), AllocHead(mem, head, bs[i].addr, prev, n), FreeList(Take(bs, i, n)))
    {
      var l := FreeList(bs);
      i := FreeBlock(bs, k);
      assert bs[i].addr in mem && mem[bs[i].addr].size == bs[i].size;
      FoundFits(mem, bs, n, i, l[..k]);
      FreeListIncreasing(bs, lo, hi);
      if bs[i].size >= n + HEADER + MIN_ALIGN {
        Inside(bs, lo, hi, i, bs[i].addr + HEADER + n);
      }
      AllocLinked(mem, head, l, k, n, prev);
      TakeList(bs, i, n);
      AllocStored(mem, bs, lo, hi, i, n, prev);
      TakeTiles(bs, lo, hi, i, n);
      TilesCut(bs, lo, hi, i);
      SumAligned(bs[i].addr, 16);
    }

    static lemma FoundFits(mem: Mem, bs: seq<Block>, n: nat, i: nat, seen: seq<nat>)
      requires Stored(mem, bs) && i < |bs| && bs[i].free && bs[i].size >= n && seen == FreeList(bs[..i])
      requires Small(mem, seen, |seen|, n)
      ensures FirstFit(bs, n, i) && !NoFit(bs, n)
    {
      forall j | 0 <= j < i ensures !(bs[j].free && bs[j].size >= n) {
        FreeInList(bs[..i], j);
        assert bs[..i][j] == bs[j];
      }
    }

    static lemma NothingFits(mem: Mem, bs: seq<Block>, n: nat)
      requires Stored(mem, bs) && Small(mem, FreeList(bs), |FreeList(bs)|, n)
      ensures NoFit(bs, n)
    {
      forall j | 0 <= j < |bs| ensures !(bs[j].free && bs[j].size >= n) {
        FreeInList(bs, j);
      }
    }

    /** Frees the block whose payload is at `p`: it is marked free and merged with
        its free neighbours on both sides. */
    method Dealloc(p: nat, ghost i: nat)
      requires Valid() && i < |blocks| && !blocks[i].free && p == blocks[i].addr + HEADER
      modifies this
      ensures Valid() && lo == old(lo) && hi == old(hi)
      ensures old(blocks[MergeLo(blocks, i)].addr) + HEADER <= End(old(blocks[MergeHi(blocks, i) - 1]))
      ensures blocks == Release(old(blocks), i)
    {
      var block := p - HEADER;
      var prev, cur := FindPlace(block, FreeList(blocks));
      DeallocStep(mem, head, blocks, lo, hi, i, prev, cur);
      Relink(block, prev, cur);
      blocks := Release(blocks, i);
    }

    /** The address-ordered list walk. */
    method FindPlace(block: nat, ghost l: seq<nat>) returns (prev: nat, cur: nat)
      requires Linked(mem, head, l)
      ensures exists k: nat :: Place(l, block, k, prev, cur)
    {
      prev, cur := 0, head;
      ghost var k: nat := 0;
      while cur != 0 && cur < block
        invariant k <= |l| && cur == At(l, k) && prev == (if k == 0 then 0 else l[k - 1])
        invariant forall j :: 0 <= j < k ==> l[j] < block
        invariant k < |l| ==> cur != 0
        decreases |l| - k
      {
        LinkedAt(mem, head, l, k);
        prev := cur;
        cur := mem[cur].next;
        k := k + 1;
        if k < |l| {
          LinkedAt(mem, head, l, k);
        }
      }
      assert Place(l, block, k, prev, cur);
    }

    /** `prev` and `cur` are the neighbours in `l` of an element `block`. */
    static ghost predicate Place(l: seq<nat>, block: nat, k: nat, prev: nat, cur: nat) {
      && k <= |l| && cur == At(l, k) && prev == (if k == 0 then 0 else l[k - 1])
      && (forall j :: 0 <= j < k ==> l[j] < block) && (k < |l| ==> l[k] >= block)
    }

    /** Links the block in and merges it with the next and the previous one. */
    method Relink(block: nat, prev: nat, cur: nat)
      requires block in mem && (prev != 0 ==> prev in mem) && (cur != 0 ==> cur in mem)
      modifies `mem, `head
      ensures mem == DeallocMem(old(mem), block, prev, cur) && head == if prev == 0 then block else old(head)
    {
      mem := mem[block := Header(mem[block].size, cur)];
      if prev == 0 {
        head := block;
      } else {
        mem := mem[prev := Header(mem[prev].size, block)];
      }
      if cur != 0 && block + HEADER + mem[block].size == cur {
        mem := mem[block := Header(mem[block].size + HEADER + mem[cur].size, mem[cur].next)];
      }
      if prev != 0 && prev + HEADER + mem[prev].size == block {
        mem := mem[prev := Header(mem[prev].size + HEADER + mem[block].size, mem[block].next)];
      }
    }

    /** Everything `dealloc` keeps. */
    static lemma DeallocStep(mem: Mem, head: nat, bs: seq<Block>, lo: nat, hi: nat, i: nat, prev: nat, cur: nat)
      requires Tiles(bs, lo, hi) && Coalesced(bs) && Stored(mem, bs) && Linked(mem, head, FreeList(bs)) && i < |bs| && !bs[i].free
      requires exists k: nat :: Place(FreeList(bs), bs[i].addr, k, prev, cur)
      ensures bs[i].addr in mem && (prev != 0 ==> prev in mem) && (cur != 0 ==> cur in mem)
      ensures bs[MergeLo(bs, i)].addr + HEADER <= End(bs[MergeHi(bs, i) - 1])
      ensures Tiles(Release(bs, i), lo, hi) && Coalesced(Release(bs, i))
      ensures Stored(DeallocMem(mem, bs[i].addr, prev, cur), Release(bs, i))
      ensures Linked(DeallocMem(mem, bs[i].addr, prev, cur), if prev == 0 then bs[i].addr else head, FreeList(Release(bs, i)))
    {
      var l, block := FreeList(bs), bs[i].addr;
      var p, r := FreeList(bs[..i]), FreeList(bs[i + 1..]);
      ReleaseTiles(bs, lo, hi, i);
      AroundFreed(bs, lo, hi, i, prev, cur);
      DeallocLinked(mem, head, p, r, block, prev, cur);
      NextTouches(bs, lo, hi, i);
      PrevTouches(mem, bs, lo, hi, i);
      StoredAfter(mem, bs, lo, hi, i, prev, cur);
      ReleaseList(bs, i);
    }

    /** The headers after both merges. */
    static lemma StoredAfter(mem: Mem, bs: seq<Block>, lo: nat, hi: nat, i: nat, prev: nat, cur: nat)
      requires Tiles(bs, lo, hi) && Stored(mem, bs) && i < |bs| && !bs[i].free && bs[i].addr in mem && bs[i].addr > 0
      requires bs[MergeLo(bs, i)].addr + HEADER <= End(bs[MergeHi(bs, i) - 1])
      requires (prev != 0 ==> prev in mem && prev != bs[i].addr) && (cur != 0 ==> cur in mem && cur != bs[i].addr && cur != prev)
      requires var l := FreeList(bs[..i]); prev == (if l == [] then 0 else l[|l| - 1]) && cur == At(FreeList(bs[i + 1..]), 0)
      requires (cur != 0 && End(bs[i]) == cur) <==> (i + 1 < |bs| && bs[i + 1].free)
      requires i + 1 < |bs| && bs[i + 1].free ==> cur == bs[i + 1].addr
      requires (prev != 0 && prev + HEADER + mem[prev].size == bs[i].addr) <==> (i > 0 && bs[i - 1].free)
      requires i > 0 && bs[i - 1].free ==> prev == bs[i - 1].addr
      ensures Stored(DeallocMem(mem, bs[i].addr, prev, cur), Release(bs, i))
    {
      assert mem[bs[i].addr].size == bs[i].size;
      assert i + 1 < |bs| && bs[i + 1].free ==> mem[cur].size == bs[i + 1].size;
      assert i > 0 && bs[i - 1].free ==> mem[prev].size == bs[i - 1].size;
      DeallocSizes(mem, bs[i].addr, prev, cur);
      DeallocStored(mem, DeallocMem(mem, bs[i].addr, prev, cur), bs, lo, hi, i, prev);
    }

    static lemma AroundFreed(bs: seq<Block>, lo: nat, hi: nat, i: nat, prev: nat, cur: nat)
      requires Tiles(bs, lo, hi) && i < |bs| && !bs[i].free
      requires exists k: nat :: Place(FreeList(bs), bs[i].addr, k, prev, cur)
      ensures var p, r := FreeList(bs[..i]), FreeList(bs[i + 1..]);
              && FreeList(bs) == p + r && Increasing(p + r) && Increasing(p + [bs[i].addr] + r) && bs[i].addr !in p + r && bs[i].addr > 0
              && prev == (if p == [] then 0 else p[|p| - 1]) && cur == At(r, 0)
              && (prev != 0 <==> p != [])
    {
      var l := FreeList(bs);
      var k: nat :| Place(l, bs[i].addr, k, prev, cur);
      var k2 := FreePlace(bs, lo, hi, i);
      FreeListIncreasing(bs, lo, hi);
      TilesCut(bs, lo, hi, i);
      AroundPlace(l, k, k2, bs[i].addr, prev, cur);
    }

    static lemma AroundPlace(l: seq<nat>, k: nat, k2: nat, block: nat, prev: nat, cur: nat)
      requires Increasing(l) && (forall j :: 0 <= j < |l| ==> l[j] > 0) && Place(l, block, k, prev, cur) && k2 <= |l|
      requires (forall j :: 0 <= j < k2 ==> l[j] < block) && (forall j :: k2 <= j < |l| ==> l[j] > block)
      ensures var p, r := l[..k2], l[k2..];
              && l == p + r && Increasing(p + r) && Increasing(p + [block] + r)
              && prev == (if p == [] then 0 else p[|p| - 1]) && cur == At(r, 0) && (prev != 0 <==> p != [])
    {
      assert k == k2;
      IncreasingInsert(l, k, block);
      assert l == l[..k] + l[k..];
    }

    static lemma IncreasingInsert(l: seq<nat>, k: nat, block: nat)
      requires Increasing(l) && k <= |l| && (forall j :: 0 <= j < k ==> l[j] < block) && (forall j :: k <= j < |l| ==> l[j] > block)
      ensures Increasing(l[..k] + [block] + l[k..])
    {
      var a := l[..k] + [block] + l[k..];
      forall x, y | 0 <= x < y < |a| ensures a[x] < a[y] {
        assert a[x] == if x < k then l[x] else if x == k then block else l[x - 1];
        assert a[y] == if y < k then l[y] else if y == k then block else l[y - 1];
      }
    }
  }

  // ---- whole runs --------------------------------------------------------------------

  /** One call of `alloc` or `dealloc`, on the tiling. */
  ghost predicate HeapStep(bs: seq<Block>, ts: seq<Block>) {
    || (exists size: nat, i: nat :: FirstFit(bs, Rounded(size), i) && ts == Take(bs, i, Rounded(size)))
    || (exists size: nat :: NoFit(bs, Rounded(size)) && ts == bs)
    || (exists i: nat :: Freed(bs, i, ts))
  }

  ghost predicate Freed(bs: seq<Block>, i: nat, ts: seq<Block>) {
    && i < |bs| && !bs[i].free && bs[MergeLo(bs, i)].addr + HEADER <= End(bs[MergeHi(bs, i) - 1])
    && ts == Release(bs, i)
  }

  ghost predicate HeapRun(run: seq<seq<Block>>) {
    |run| > 0 && forall j :: 0 <= j < |run| - 1 ==> HeapStep(run[j], run[j + 1])
  }

  lemma StepTiles(bs: seq<Block>, ts: seq<Block>, lo: nat, hi: nat)
    requires Tiles(bs, lo, hi) && Coalesced(bs) && HeapStep(bs, ts)
    ensures Tiles(ts, lo, hi) && Coalesced(ts)
  {
    if size: nat, i: nat :| FirstFit(bs, Rounded(size), i) && ts == Take(bs, i, Rounded(size)) {
      TakeTiles(bs, lo, hi, i, Rounded(size));
    } else if size: nat :| NoFit(bs, Rounded(size)) && ts == bs {
    } else {
      var i: nat :| Freed(bs, i, ts);
      ReleaseTiles(bs, lo, hi, i);
    }
  }

  /** In every state of every run of allocations and frees the heap range is tiled
      exactly and coalesced. */
  lemma {:induction false} RunTiles(run: seq<seq<Block>>, lo: nat, hi: nat)
    requires HeapRun(run) && Tiles(run[0], lo, hi) && Coalesced(run[0])
    ensures Tiles(run[|run| - 1], lo, hi) && Coalesced(run[|run| - 1])
    decreases |run|
  {
    if |run| > 1 {
      RunTiles(run[..|run| - 1], lo, hi);
      StepTiles(run[|run| - 2], run[|run| - 1], lo, hi);
    }
  }

  /** So once everything allocated in a run has been freed again, in whatever order,
      the heap is the single block it started as. */
  lemma RunRestores(run: seq<seq<Block>>, lo: nat, hi: nat)
    requires HeapRun(run) && 0 < lo && lo % 16 == 0 && hi % 16 == 0 && lo + HEADER <= hi
    requires run[0] == [Block(lo, hi - lo - HEADER, true)]
    requires AllFree(run[|run| - 1])
    ensures run[|run| - 1] == run[0]
  {
    DiffAligned(hi, lo);
    DiffAligned(hi - lo, 16);
    assert run[0][1..] == [];
    RunTiles(run, lo, hi);
    AllFreeIsInitial(run[|run| - 1], lo, hi);
  }
}
