/** FAT32 directories at the byte level (src/fat.rs:155-226, 351-371, 566-615, 637-762):
    the scan over 32-byte slots, deletion, and the long-name encoding. A `String` made
    by `from_utf8_lossy` is kept as its bytes. */
module Directory {
  import opened Bytes
  import opened Fat

  /** One 32-byte slot and where it is: the cluster and the byte offset in it. */
  datatype Slot = Slot(bytes: seq<Byte>, cluster: nat, offset: nat)

  datatype DirEntry = DirEntry(name: seq<nat>, isDir: bool, size: nat, first: nat, cluster: nat, offset: nat)

  /** The scanner's variables; `ended` once the end mark was met. */
  datatype Scan = Scan(parts: seq<seq<nat>>, out: seq<DirEntry>, ended: bool)

  function U16(b: seq<Byte>, i: nat): (r: nat)
    requires i + 1 < |b|
    ensures r < 0x1_0000
  {
    var lo: nat, hi: nat := b[i], b[i + 1];
    lo + 256 * hi
  }

  /** Where character `i` of a long-name part lies in its slot. */
  function CharIndex(i: nat): nat {
    if i < 5 then 1 + i * 2 else if i < 11 then 14 + (i - 5) * 2 else 28 + (i - 11) * 2
  }

  function PartOf(b: seq<Byte>): seq<nat>
    requires |b| == 32
  {
    seq(13, i requires 0 <= i < 13 => U16(b, CharIndex(i)))
  }

  /** The characters before the first 0x0000 or 0xFFFF, non-ASCII ones as '?'. */
  function Visible(w: seq<nat>): seq<nat> {
    if w == [] || w[0] == 0 || w[0] == 0xFFFF then [] else [if w[0] < 0x80 then w[0] else 0x3F] + Visible(w[1..])
  }

  function Flatten(parts: seq<seq<nat>>): seq<nat> {
    if parts == [] then [] else parts[0] + Flatten(parts[1..])
  }

  function UntilSpace(b: seq<nat>): seq<nat> {
    if b == [] || b[0] == 0x20 then [] else [b[0]] + UntilSpace(b[1..])
  }

  /** `sfn_name`. */
  function SfnName(b: seq<Byte>): seq<nat>
    requires |b| == 32
  {
    var ext := UntilSpace(b[8..11]);
    UntilSpace(b[..8]) + (if ext == [] then [] else [0x2E] + ext)
  }

  const DOT: seq<nat> := [0x2E]
  const DOTDOT: seq<nat> := [0x2E, 0x2E]

  function NameOf(parts: seq<seq<nat>>, b: seq<Byte>): seq<nat>
    requires |b| == 32
  {
    if parts == [] then SfnName(b) else Visible(Flatten(parts))
  }

  function EntryOf(name: seq<nat>, s: Slot): DirEntry
    requires |s.bytes| == 32
  {
    var attr: nat := s.bytes[0x0B];
    DirEntry(name, attr / 16 % 2 == 1, WordAt(s.bytes, 7), U16(s.bytes, 0x14) * 0x1_0000 + U16(s.bytes, 0x1A), s.cluster, s.offset)
  }

  /** One slot of the scan. */
  function Step(st: Scan, s: Slot): Scan
    requires |s.bytes| == 32
  {
    if st.ended then st
    else if s.bytes[0] == 0x00 then st.(ended := true)
    else if s.bytes[0] == 0xE5 then st.(parts := [])
    else if s.bytes[0x0B] == 0x0F then st.(parts := [PartOf(s.bytes)] + st.parts)
    else
      var name := NameOf(st.parts, s.bytes);
      if name == [] || name == DOT || name == DOTDOT then st.(parts := [])
      else Scan([], st.out + [EntryOf(name, s)], false)
  }

  ghost predicate Slots(ss: seq<Slot>) { forall i :: 0 <= i < |ss| ==> |ss[i].bytes| == 32 }

  ghost function Run(st: Scan, ss: seq<Slot>): Scan
    requires Slots(ss)
    decreases ss
  {
    if ss == [] then st else Run(Step(st, ss[0]), ss[1..])
  }

  lemma {:induction false} RunConcat(st: Scan, a: seq<Slot>, b: seq<Slot>)
    requires Slots(a) && Slots(b)
    ensures Run(st, a + b) == Run(Run(st, a), b)
    decreases a
  {
    if a == [] {
      assert a + b == b;
    } else {
      assert (a + b)[1..] == a[1..] + b;
      RunConcat(Step(st, a[0]), a[1..], b);
    }
  }

  lemma {:induction false} RunEnded(st: Scan, a: seq<Slot>)
    requires Slots(a) && st.ended
    ensures Run(st, a) == st
    decreases a
  {
    if a != [] {
      RunEnded(st, a[1..]);
    }
  }

  /** What was found before does not influence what is found next. */
  lemma {:induction false} RunShift(st: Scan, st0: Scan, a: seq<Slot>)
    requires Slots(a) && st0 == st.(out := [])
    ensures Run(st, a).out == st.out + Run(st0, a).out && Run(st, a).ended == Run(st0, a).ended && Run(st, a).parts == Run(st0, a).parts
    decreases a
  {
    if a != [] {
      var n, n0 := Step(st, a[0]), Step(st0, a[0]);
      assert n.out == st.out + n0.out && n.parts == n0.parts && n.ended == n0.ended;
      RunShift(n, n.(out := []), a[1..]);
      RunShift(n0, n0.(out := []), a[1..]);
    }
  }

  // ---- deletion -------------------------------------------------------------------

  /** Slot `s` yields an entry when the scan reaches it in state `st`. */
  ghost predicate Yields(st: Scan, s: Slot, e: DirEntry)
    requires |s.bytes| == 32
  {
    !st.ended && Step(st, s) == Scan([], st.out + [e], false)
  }

  /** Every entry comes from a slot, at that slot's location. */
  lemma {:induction false} EntryComesFrom(st: Scan, ss: seq<Slot>, e: DirEntry) returns (k: nat)
    requires Slots(ss) && e in Run(st, ss).out && e !in st.out
    ensures k < |ss| && Yields(Run(st, ss[..k]), ss[k], e) && ss[k].cluster == e.cluster && ss[k].offset == e.offset
    decreases ss
  {
    if ss != [] {
      var n := Step(st, ss[0]);
      if e in n.out {
        k := 0;
        assert ss[..0] == [];
      } else {
        k := EntryComesFrom(n, ss[1..], e);
        k := k + 1;
        assert ss[..k][1..] == ss[1..][..k - 1] && ss[..k][0] == ss[0];
      }
    }
  }

  /** The slot with its first byte set to 0xE5. */
  function Erased(s: Slot): Slot
    requires |s.bytes| == 32
  {
    s.(bytes := s.bytes[0 := 0xE5])
  }

  /** Over long-name or erased slots nothing is found, and the scan ends at most. */
  lemma {:induction false} RunOverNames(st: Scan, run: seq<Slot>)
    requires Slots(run) && forall i :: 0 <= i < |run| ==> run[i].bytes[0x0B] == 0x0F
    ensures Run(st, run).out == st.out
    decreases run
  {
    if run != [] {
      RunOverNames(Step(st, run[0]), run[1..]);
    }
  }

  lemma {:induction false} RunOverErased(st: Scan, run: seq<Slot>)
    requires Slots(run) && forall i :: 0 <= i < |run| ==> run[i].bytes[0] == 0xE5
    ensures Run(st, run).out == st.out && Run(st, run).ended == st.ended
    ensures run != [] && !st.ended ==> Run(st, run).parts == []
    decreases run
  {
    if run != [] {
      RunOverErased(Step(st, run[0]), run[1..]);
    }
  }

  /** Erasing the slot that yields `e`, with any long-name slots right before it,
      removes that one entry from the listing and nothing else. */
  lemma DeleteOne(a: seq<Slot>, names: seq<Slot>, s: Slot, b: seq<Slot>, names2: seq<Slot>, st: Scan, e: DirEntry)
    requires Slots(a) && Slots(names) && |s.bytes| == 32 && Slots(b) && Slots(names2)
    requires forall i :: 0 <= i < |names| ==> names[i].bytes[0x0B] == 0x0F
    requires forall i :: 0 <= i < |names2| ==> names2[i].bytes[0] == 0xE5
    requires Yields(Run(st, a + names), s, e)
    ensures Run(st, a + names + [s] + b).ended == Run(st, a + names2 + [Erased(s)] + b).ended
    ensures exists l, r :: Run(st, a + names + [s] + b).out == l + [e] + r && Run(st, a + names2 + [Erased(s)] + b).out == l + r
  {
    var st1 := Run(st, a);
    RunConcat(st, a, names);
    RunOverNames(st1, names);
    if st1.ended {
      RunEnded(st1, names);
    }
    var st2 := Run(st1, names);
    var after := Scan([], st1.out + [e], false);
    RunFour(st, a, names, s, b);
    RunFour(st, a, names2, Erased(s), b);
    RunOverErased(st1, names2);
    var after2 := Scan([], st1.out, false);
    assert Step(Run(st1, names2), Erased(s)) == after2;
    var from := Scan([], [], false);
    RunShift(after, from, b);
    RunShift(after2, from, b);
  }

  lemma RunFour(st: Scan, a: seq<Slot>, names: seq<Slot>, s: Slot, b: seq<Slot>)
    requires Slots(a) && Slots(names) && |s.bytes| == 32 && Slots(b)
    ensures Run(st, a + names + [s] + b) == Run(Step(Run(Run(st, a), names), s), b)
  {
    RunConcat(st, a + names + [s], b);
    RunConcat(st, a + names, [s]);
    RunConcat(st, a, names);
    var m := Run(Run(st, a), names);
    assert Run(m, [s]) == Run(Step(m, s), [s][1..]) == Step(m, s);
  }
}
