/** Writing directory entries (src/fat.rs:566-615, 637-722): the long-name slots and the
    short entry made for a name, and what the scanner makes of them. A name is a
    sequence of character codes. */
module LongName {
  import opened Bytes
  import opened Fat
  import opened Directory

  // ---- names -----------------------------------------------------------------------

  function Utf8Len(name: seq<nat>): (r: nat)
    ensures r >= |name|
  {
    if name == [] then 0
    else (if name[0] < 0x80 then 1 else if name[0] < 0x800 then 2 else if name[0] < 0x1_0000 then 3 else 4) + Utf8Len(name[1..])
  }

  const MAX_NAME: nat := 128

  /** `validate_name`. */
  predicate ValidName(name: seq<nat>) {
    && name != [] && Utf8Len(name) <= MAX_NAME && name[0] != 0x2E
    && forall i :: 0 <= i < |name| ==> name[i] >= 0x20 && name[i] != 0x7F && name[i] != 0x2F
  }

  predicate Ascii(name: seq<nat>) { forall i :: 0 <= i < |name| ==> name[i] < 0x80 }

  /** `c as u16` of every character. */
  function Units(name: seq<nat>): (r: seq<nat>)
    ensures |r| == |name| && forall i :: 0 <= i < |r| ==> r[i] < 0x1_0000
  {
    seq(|name|, i requires 0 <= i < |name| => name[i] % 0x1_0000)
  }

  // ---- short names -------------------------------------------------------------------

  predicate SfnChar(c: nat) {
    || 0x30 <= c <= 0x39 || 0x41 <= c <= 0x5A || 0x61 <= c <= 0x7A
    || c in [0x24, 0x25, 0x27, 0x2D, 0x5F, 0x40, 0x7E, 0x60, 0x21, 0x28, 0x29, 0x7B, 0x7D, 0x5E, 0x23, 0x26]
  }

  function Upper(c: nat): nat { if 0x61 <= c <= 0x7A then c - 0x20 else c }

  /** The first `n` allowed characters in upper case, filled up with spaces. */
  function Short(s: seq<nat>, n: nat): (r: seq<Byte>)
    ensures |r| == n && forall i :: 0 <= i < n ==> 0x20 <= r[i] < 0x80
    decreases n, |s|
  {
    if n == 0 then []
    else if s == [] then seq(n, _ => 0x20)
    else if SfnChar(s[0]) then [Upper(s[0])] + Short(s[1..], n - 1)
    else Short(s[1..], n)
  }

  /** `rfind('.')`, the length when there is none. */
  function LastDot(name: seq<nat>, n: nat): (r: nat)
    requires n <= |name|
    ensures r < n || r == |name|
  {
    if n == 0 then |name| else if name[n - 1] == 0x2E then n - 1 else LastDot(name, n - 1)
  }

  function MakeSfn(name: seq<nat>): (r: seq<Byte>)
    ensures |r| == 11 && forall i :: 0 <= i < 11 ==> 0x20 <= r[i] < 0x80
  {
    var stem := LastDot(name, |name|);
    Short(name[..stem], 8) + Short(if stem < |name| then name[stem + 1..] else [], 3)
  }

  function SfnChecksum(sfn: seq<Byte>, sum: Byte): Byte
    decreases |sfn|
  {
    if sfn == [] then sum
    else
      var s: nat, b: nat := sum, sfn[0];
      SfnChecksum(sfn[1..], (s % 2 * 128 + s / 2 + b) % 256)
  }

  // ---- long-name slots -----------------------------------------------------------------

  /** The byte of an LFN slot at position `b`. */
  function LfnByte(first: Byte, part: seq<nat>, checksum: Byte, b: nat): Byte
    requires |part| == 13
  {
    if b == 0 then first
    else if b == 0x0B then 0x0F
    else if b == 0x0D then checksum
    else if 1 <= b < 11 then ByteOf(part[(b - 1) / 2], (b - 1) % 2)
    else if 14 <= b < 26 then ByteOf(part[5 + (b - 14) / 2], b % 2)
    else if 28 <= b < 32 then ByteOf(part[11 + (b - 28) / 2], b % 2)
    else 0
  }

  function LfnSlot(ordinal: nat, part: seq<nat>, last: bool, checksum: Byte): (r: seq<Byte>)
    requires |part| == 13 && ordinal < 0x40
  {
    var first: nat := if last then ordinal + 0x40 else ordinal;
    seq(32, b requires 0 <= b < 32 => LfnByte(first, part, checksum, b))
  }

  /** The scanner reads back the part that was written. */
  lemma PartRoundTrip(ordinal: nat, part: seq<nat>, last: bool, checksum: Byte)
    requires |part| == 13 && ordinal < 0x40 && forall i :: 0 <= i < 13 ==> part[i] < 0x1_0000
    ensures PartOf(LfnSlot(ordinal, part, last, checksum)) == part
  {
    var s := LfnSlot(ordinal, part, last, checksum);
    forall i: nat | i < 13 ensures PartOf(s)[i] == part[i] {
      PairAt(s, part, i, ordinal, last, checksum);
    }
  }

  lemma PairAt(s: seq<Byte>, part: seq<nat>, i: nat, ordinal: nat, last: bool, checksum: Byte)
    requires |part| == 13 && ordinal < 0x40 && s == LfnSlot(ordinal, part, last, checksum) && i < 13 && part[i] < 0x1_0000
    ensures U16(s, CharIndex(i)) == part[i]
  {
    var b, v := CharIndex(i), part[i];
    var first: nat := if last then ordinal + 0x40 else ordinal;
    assert s[b] == LfnByte(first, part, checksum, b) && s[b + 1] == LfnByte(first, part, checksum, b + 1);
    BytesAt(first, part, checksum, i);
    assert ByteOf(v, 1) == ByteOf(v / 256, 0) == v / 256;
  }

  lemma BytesAt(first: Byte, part: seq<nat>, checksum: Byte, i: nat)
    requires |part| == 13 && i < 13
    ensures LfnByte(first, part, checksum, CharIndex(i)) == ByteOf(part[i], 0)
    ensures LfnByte(first, part, checksum, CharIndex(i) + 1) == ByteOf(part[i], 1)
  {
    if i < 5 {
      assert (2 * i) / 2 == i && (2 * i + 1) / 2 == i;
    } else if i < 11 {
      assert (2 * (i - 5)) / 2 == i - 5 && (2 * (i - 5) + 1) / 2 == i - 5;
    } else {
      assert (2 * (i - 11)) / 2 == i - 11 && (2 * (i - 11) + 1) / 2 == i - 11;
    }
  }

  function Least(a: nat, b: nat): nat { if a < b then a else b }

  /** A part of fewer than 13 characters ends with 0x0000 and is filled with 0xFFFF. */
  function PadPart(w: seq<nat>): (r: seq<nat>)
    requires |w| <= 13
    ensures |r| == 13
  {
    if |w| == 13 then w else w + [0] + seq(12 - |w|, _ => 0xFFFF)
  }

  function Parts(w: seq<nat>): seq<seq<nat>> {
    if w == [] then [] else [PadPart(w[..Least(|w|, 13)])] + Parts(w[Least(|w|, 13)..])
  }

  lemma {:induction false} PartsAt(w: seq<nat>, i: nat)
    requires i * 13 < |w|
    ensures i < |Parts(w)| && Parts(w)[i] == PadPart(w[i * 13..][..Least(|w| - i * 13, 13)])
    decreases i
  {
    if i == 0 {
      assert w[0..] == w;
    } else {
      PartsAt(w[13..], i - 1);
      assert w[13..][(i - 1) * 13..] == w[i * 13..];
    }
  }

  lemma {:induction false} PartsLen(w: seq<nat>)
    ensures |Parts(w)| == (|w| + 12) / 13
    decreases |w|
  {
    if w != [] {
      PartsLen(w[Least(|w|, 13)..]);
    }
  }

  lemma {:induction false} PartsWell(w: seq<nat>)
    requires forall i :: 0 <= i < |w| ==> w[i] < 0x1_0000
    ensures forall i :: 0 <= i < |Parts(w)| ==> |Parts(w)[i]| == 13
    ensures forall i, j :: 0 <= i < |Parts(w)| && 0 <= j < 13 ==> Parts(w)[i][j] < 0x1_0000
    decreases |w|
  {
    if w != [] {
      PartsWell(w[Least(|w|, 13)..]);
    }
  }

  /** What comes after the characters when parts `pending` follow: nothing if the last
      part carries a terminator. */
  function Behind(n: nat, pending: seq<seq<nat>>): seq<nat> { if n % 13 == 0 then Flatten(pending) else [] }

  /** Joined again, the parts show exactly what the characters show, except that a name
      that fills its last part runs on into whatever parts follow. */
  lemma {:induction false} PartsShow(w: seq<nat>, pending: seq<seq<nat>>)
    ensures Visible(Flatten(Parts(w) + pending)) == Visible(w + Behind(|w|, pending))
    decreases |w|
  {
    if w == [] {
      NoParts(w, pending);
    } else if |w| < 13 {
      PartsFirst(w, |w|, pending);
      ShortPart(w, Flatten(Parts(w[|w|..]) + pending));
      assert w[..|w|] == w && w + [] == w;
    } else {
      var tail := w[13..];
      PartsFirst(w, 13, pending);
      PartsShow(tail, pending);
      FullPart(w, w[..13], tail, Flatten(Parts(tail) + pending), Behind(|tail|, pending));
      BehindTail(|w|, |tail|, pending);
    }
  }

  lemma NoParts(w: seq<nat>, pending: seq<seq<nat>>)
    requires w == []
    ensures Flatten(Parts(w) + pending) == w + Behind(|w|, pending)
  {
    assert Parts(w) + pending == pending && w + Flatten(pending) == Flatten(pending);
  }

  lemma PartsFirst(w: seq<nat>, k: nat, pending: seq<seq<nat>>)
    requires w != [] && k == Least(|w|, 13)
    ensures Flatten(Parts(w) + pending) == PadPart(w[..k]) + Flatten(Parts(w[k..]) + pending)
  {
    assert (Parts(w) + pending)[1..] == Parts(w[k..]) + pending;
  }

  lemma BehindTail(n: nat, k: nat, pending: seq<seq<nat>>)
    requires n == k + 13
    ensures Behind(n, pending) == Behind(k, pending)
  {
  }

  lemma FullPart(w: seq<nat>, head: seq<nat>, tail: seq<nat>, later: seq<nat>, behind: seq<nat>)
    requires w == head + tail && Visible(later) == Visible(tail + behind)
    ensures Visible(head + later) == Visible(w + behind)
  {
    Regroup3(head, tail, behind);
    VisibleConcat(head, later, tail + behind);
  }

  lemma Regroup3(a: seq<nat>, b: seq<nat>, c: seq<nat>)
    ensures a + b + c == a + (b + c)
  {
  }

  lemma ShortPart(head: seq<nat>, later: seq<nat>)
    requires |head| < 13
    ensures Visible(PadPart(head) + later) == Visible(head)
  {
    var pad := [0] + seq(12 - |head|, _ => 0xFFFF) + later;
    assert PadPart(head) + later == head + pad;
    VisibleConcat(head, pad, []);
    assert head + [] == head;
  }

  lemma {:induction false} VisibleConcat(h: seq<nat>, t: seq<nat>, u: seq<nat>)
    requires Visible(t) == Visible(u)
    ensures Visible(h + t) == Visible(h + u)
    decreases |h|
  {
    if h == [] {
      assert h + t == t && h + u == u;
    } else {
      assert (h + t)[1..] == h[1..] + t && (h + u)[1..] == h[1..] + u;
      VisibleConcat(h[1..], t, u);
    }
  }

  /** A name is shown as itself exactly when it is ASCII. */
  lemma {:induction false} ShownAsIs(name: seq<nat>)
    requires forall i :: 0 <= i < |name| ==> name[i] != 0
    ensures Visible(Units(name)) == name <==> Ascii(name)
    decreases |name|
  {
    if name != [] {
      assert Units(name)[1..] == Units(name[1..]);
      ShownAsIs(name[1..]);
      assert Ascii(name) <==> name[0] < 0x80 && Ascii(name[1..]);
      if name[0] < 0x80 {
        assert Visible(Units(name)) == [name[0]] + Visible(Units(name[1..]));
        assert name == [name[0]] + name[1..];
        assert Visible(Units(name)) == name ==> Visible(Units(name))[1..] == name[1..];
      } else {
        assert Visible(Units(name)) == [] || Visible(Units(name))[0] < 0x80;
      }
    }
  }

  // ---- the slots of one name -------------------------------------------------------------

  /** The last `n` long-name slots written: ordinals n, n-1, .., 1. */
  function LfnSlots(parts: seq<seq<nat>>, n: nat, checksum: Byte): (r: seq<seq<Byte>>)
    requires n <= |parts| < 0x40 && forall i :: 0 <= i < |parts| ==> |parts[i]| == 13
    ensures |r| == n
    decreases n
  {
    if n == 0 then [] else [LfnSlot(n, parts[n - 1], n == |parts|, checksum)] + LfnSlots(parts, n - 1, checksum)
  }

  datatype Meta = Meta(isDir: bool, first: nat, size: nat, date: nat, time: nat)

  ghost predicate MetaOk(m: Meta) { m.first < 0x1_0000_0000 && m.size < 0x1_0000_0000 && m.date < 0x1_0000 && m.time < 0x1_0000 }

  /** The byte of the short entry at position `b`. */
  function SfnByte(sfn: seq<Byte>, m: Meta, b: nat): Byte
    requires |sfn| == 11
  {
    if b < 11 then sfn[b]
    else if b == 0x0B then (if m.isDir then 0x10 else 0x20)
    else if b == 0x0E || b == 0x0F || b == 0x16 || b == 0x17 then ByteOf(m.time, b % 2)
    else if b == 0x10 || b == 0x11 || b == 0x12 || b == 0x13 || b == 0x18 || b == 0x19 then ByteOf(m.date, b % 2)
    else if b == 0x14 || b == 0x15 then ByteOf(m.first / 0x1_0000, b - 0x14)
    else if b == 0x1A || b == 0x1B then ByteOf(m.first % 0x1_0000, b - 0x1A)
    else if 0x1C <= b < 0x20 then ByteOf(m.size, b - 0x1C)
    else 0
  }

  function SfnSlot(sfn: seq<Byte>, m: Meta): (r: seq<Byte>)
    requires |sfn| == 11
  {
    seq(32, b requires 0 <= b < 32 => SfnByte(sfn, m, b))
  }

  /** All slots `write_dir_entries` makes for a name. */
  function SlotsFor(name: seq<nat>, m: Meta): (r: seq<seq<Byte>>)
    requires |name| <= MAX_NAME
  {
    var parts := Parts(Units(name));
    var sfn := MakeSfn(name);
    PartsWell(Units(name));
    PartsLen(Units(name));
    LfnSlots(parts, |parts|, SfnChecksum(sfn, 0)) + [SfnSlot(sfn, m)]
  }

  /** The slots placed from `offset` on in a cluster. */
  ghost function Placed(slots: seq<seq<Byte>>, cluster: nat, offset: nat): seq<Slot> {
    seq(|slots|, i requires 0 <= i < |slots| => Slot(slots[i], cluster, offset + 32 * i))
  }

  lemma FieldsBack(sfn: seq<Byte>, m: Meta)
    requires |sfn| == 11 && MetaOk(m)
    ensures var s := SfnSlot(sfn, m);
            U16(s, 0x14) * 0x1_0000 + U16(s, 0x1A) == m.first && WordAt(s, 7) == m.size && s[0] == sfn[0]
  {
    var s := SfnSlot(sfn, m);
    var hi, lo := m.first / 0x1_0000, m.first % 0x1_0000;
    assert ByteOf(hi, 1) == ByteOf(hi / 256, 0) == hi / 256;
    assert ByteOf(lo, 1) == ByteOf(lo / 256, 0) == lo / 256;
    assert U16(s, 0x14) == hi && U16(s, 0x1A) == lo;
    WordBytes(m.size);
  }

  lemma LfnSlotLook(ordinal: nat, part: seq<nat>, last: bool, checksum: Byte)
    requires |part| == 13 && 0 < ordinal < 0x40
    ensures var s := LfnSlot(ordinal, part, last, checksum);
            s[0] != 0x00 && s[0] != 0xE5 && s[0x0B] == 0x0F
  {
    var s := LfnSlot(ordinal, part, last, checksum);
    var first: nat := if last then ordinal + 0x40 else ordinal;
    assert s[0] == LfnByte(first, part, checksum, 0);
    assert s[0x0B] == LfnByte(first, part, checksum, 0x0B);
  }

  /** No slot looks free, all have 32 bytes, and only the last is not a long-name slot. */
  lemma {:induction false} LfnSlotsLook(parts: seq<seq<nat>>, n: nat, checksum: Byte)
    requires n <= |parts| < 0x40 && forall i :: 0 <= i < |parts| ==> |parts[i]| == 13
    ensures forall i :: 0 <= i < n ==> |LfnSlots(parts, n, checksum)[i]| == 32
    ensures forall i :: 0 <= i < n ==>
              var s := LfnSlots(parts, n, checksum)[i];
              s[0] != 0x00 && s[0] != 0xE5 && s[0x0B] == 0x0F
    decreases n
  {
    if n > 0 {
      LfnSlotsLook(parts, n - 1, checksum);
      LfnSlotLook(n, parts[n - 1], n == |parts|, checksum);
    }
  }

  /** At most 11 slots, none of which starts with 0x00 or 0xE5: they fit one sector. */
  lemma SlotsLook(name: seq<nat>, m: Meta)
    requires ValidName(name)
    ensures |SlotsFor(name, m)| == (|name| + 12) / 13 + 1 <= 11
    ensures forall i :: 0 <= i < |SlotsFor(name, m)| ==> |SlotsFor(name, m)[i]| == 32
    ensures forall i :: 0 <= i < |SlotsFor(name, m)| ==>
              var s := SlotsFor(name, m)[i];
              s[0] != 0x00 && s[0] != 0xE5 && (s[0x0B] == 0x0F <==> i < |SlotsFor(name, m)| - 1)
  {
    var parts := Parts(Units(name));
    PartsWell(Units(name));
    PartsLen(Units(name));
    LfnSlotsLook(parts, |parts|, SfnChecksum(MakeSfn(name), 0));
  }

  lemma PlacedTail(all: seq<seq<Byte>>, cluster: nat, offset: nat)
    requires all != []
    ensures Placed(all, cluster, offset)[0] == Slot(all[0], cluster, offset)
    ensures Placed(all, cluster, offset)[1..] == Placed(all[1..], cluster, offset + 32)
  {
  }

  /** A long-name slot puts its part in front of those collected. */
  lemma StepName(st: Scan, n: nat, part: seq<nat>, last: bool, checksum: Byte, cluster: nat, offset: nat)
    requires |part| == 13 && 0 < n < 0x40 && (forall j :: 0 <= j < 13 ==> part[j] < 0x1_0000) && !st.ended
    ensures Step(st, Slot(LfnSlot(n, part, last, checksum), cluster, offset)) == st.(parts := [part] + st.parts)
  {
    PartRoundTrip(n, part, last, checksum);
    LfnSlotLook(n, part, last, checksum);
  }

  /** Scanning the long-name slots collects the parts in order. */
  lemma {:induction false} ScanParts(st: Scan, parts: seq<seq<nat>>, n: nat, checksum: Byte, cluster: nat, offset: nat)
    requires n <= |parts| < 0x40 && forall i :: 0 <= i < |parts| ==> |parts[i]| == 13
    requires forall i, j :: 0 <= i < |parts| && 0 <= j < 13 ==> parts[i][j] < 0x1_0000
    requires !st.ended && Slots(Placed(LfnSlots(parts, n, checksum), cluster, offset))
    ensures Run(st, Placed(LfnSlots(parts, n, checksum), cluster, offset)) == st.(parts := parts[..n] + st.parts)
    decreases n
  {
    if n == 0 {
      assert parts[..0] + st.parts == st.parts;
    } else {
      var n1 := n - 1;
      var part := parts[n1];
      var all, rest := LfnSlots(parts, n, checksum), LfnSlots(parts, n1, checksum);
      assert all[1..] == rest && all[0] == LfnSlot(n, part, n == |parts|, checksum);
      PlacedTail(all, cluster, offset);
      StepName(st, n, part, n == |parts|, checksum, cluster, offset);
      var st1 := st.(parts := [part] + st.parts);
      ScanParts(st1, parts, n1, checksum, cluster, offset + 32);
      PartsJoin(parts, n, n1, st.parts);
    }
  }

  lemma PartsJoin(parts: seq<seq<nat>>, n: nat, n1: nat, pending: seq<seq<nat>>)
    requires n == n1 + 1 <= |parts|
    ensures parts[..n1] + ([parts[n1]] + pending) == parts[..n] + pending
  {
  }

  predicate Listed(name: seq<nat>) { name != [] && name != DOT && name != DOTDOT }

  /** The name the scanner reports for a written name, with `pending` parts before it. */
  function ShownAfter(name: seq<nat>, pending: seq<seq<nat>>): seq<nat> { Visible(Units(name) + Behind(|name|, pending)) }

  function EntryFor(shown: seq<nat>, name: seq<nat>, m: Meta, cluster: nat, offset: nat): DirEntry {
    DirEntry(shown, m.isDir, m.size, m.first, cluster, offset + 32 * ((|name| + 12) / 13))
  }

  function Added(out: seq<DirEntry>, e: DirEntry): seq<DirEntry> { if Listed(e.name) then out + [e] else out }

  /** Scanning the slots written for a name adds exactly one entry: the name as shown,
      with the file's fields. A name that is shown as nothing, "." or ".." is not
      listed. Pending long-name parts are used up. */
  lemma NameRoundTrip(name: seq<nat>, m: Meta, st: Scan, cluster: nat, offset: nat)
    requires ValidName(name) && MetaOk(m) && !st.ended
    ensures Slots(Placed(SlotsFor(name, m), cluster, offset))
    ensures Run(st, Placed(SlotsFor(name, m), cluster, offset))
            == Scan([], Added(st.out, EntryFor(ShownAfter(name, st.parts), name, m, cluster, offset)), false)
  {
    SlotsLook(name, m);
    var w, sfn := Units(name), MakeSfn(name);
    var parts := Parts(w);
    var checksum := SfnChecksum(sfn, 0);
    PartsWell(w);
    PartsLen(w);
    var lfn, s := LfnSlots(parts, |parts|, checksum), SfnSlot(sfn, m);
    LfnSlotsLook(parts, |parts|, checksum);
    var names := Placed(lfn, cluster, offset);
    var tail := Slot(s, cluster, offset + 32 * |parts|);
    assert Placed(SlotsFor(name, m), cluster, offset) == names + [tail];
    RunConcat(st, names, [tail]);
    ScanParts(st, parts, |parts|, checksum, cluster, offset);
    assert parts[..|parts|] == parts;
    LastSlot(name, m, st, cluster, offset, parts, tail);
  }

  lemma LastSlot(name: seq<nat>, m: Meta, st: Scan, cluster: nat, offset: nat, parts: seq<seq<nat>>, tail: Slot)
    requires ValidName(name) && MetaOk(m) && !st.ended && parts == Parts(Units(name))
    requires tail == Slot(SfnSlot(MakeSfn(name), m), cluster, offset + 32 * |parts|)
    ensures Run(st.(parts := parts + st.parts), [tail])
            == Scan([], Added(st.out, EntryFor(ShownAfter(name, st.parts), name, m, cluster, offset)), false)
  {
    var st1, sfn := st.(parts := parts + st.parts), MakeSfn(name);
    PartsLen(Units(name));
    PartsShow(Units(name), st.parts);
    FieldsBack(sfn, m);
    assert tail.bytes[0x0B] == if m.isDir then 0x10 else 0x20;
    assert tail.bytes[0] == sfn[0];
    assert Run(st1, [tail]) == Run(Step(st1, tail), [tail][1..]) == Step(st1, tail);
  }

  /** With parts pending, a written name is still shown as without them exactly when it
      does not fill its last part, is cut short itself, or the parts show nothing. */
  lemma {:induction false} ShownWithPending(w: seq<nat>, u: seq<nat>)
    ensures Visible(w + u) == Visible(w) <==> |Visible(w)| < |w| || Visible(u) == []
    ensures |Visible(w)| <= |w|
    decreases |w|
  {
    if w == [] {
      assert w + u == u;
    } else {
      ShownWithPending(w[1..], u);
      var a, b := Visible(w[1..] + u), Visible(w[1..]);
      assert (w + u)[1..] == w[1..] + u && (w + u)[0] == w[0];
      assert forall x: nat :: ([x] + a)[1..] == a && ([x] + b)[1..] == b;
    }
  }

  /** Every valid ASCII name reads back as written. */
  lemma AsciiRoundTrip(name: seq<nat>, m: Meta, cluster: nat, offset: nat)
    requires ValidName(name) && Ascii(name) && MetaOk(m)
    ensures Slots(Placed(SlotsFor(name, m), cluster, offset))
    ensures Run(Scan([], [], false), Placed(SlotsFor(name, m), cluster, offset)).out == [EntryFor(name, name, m, cluster, offset)]
  {
    ShownAsIs(name);
    assert Units(name) + Behind(|name|, []) == Units(name);
    assert ShownAfter(name, []) == name && name[0] != 0x2E && Listed(name);
    NameRoundTrip(name, m, Scan([], [], false), cluster, offset);
  }

  // ---- two names that are not shown as they were written -------------------------------------

  /** A character above 0xFFFF whose low 16 bits are those of a dot. */
  const HIGH_DOT: seq<nat> := [0x1002E]

  /** It is a valid name, its slots show ".", and nothing is listed. */
  lemma HighDotUnlisted(m: Meta, st: Scan, cluster: nat, offset: nat)
    requires MetaOk(m) && !st.ended && st.parts == []
    ensures ValidName(HIGH_DOT) && ShownAfter(HIGH_DOT, []) == DOT
    ensures Slots(Placed(SlotsFor(HIGH_DOT, m), cluster, offset)) && Run(st, Placed(SlotsFor(HIGH_DOT, m), cluster, offset)).out == st.out
  {
    assert Utf8Len(HIGH_DOT) == 4 + Utf8Len(HIGH_DOT[1..]);
    var w := Units(HIGH_DOT) + Behind(|HIGH_DOT|, []);
    assert w == [0x2E] && Visible(w) == [0x2E] + Visible(w[1..]);
    NameRoundTrip(HIGH_DOT, m, st, cluster, offset);
  }

  function Repeated(c: nat): (r: seq<nat>)
    ensures |r| == 13
  {
    seq(13, _ => c)
  }

  /** The name of 13 "A", written behind a left-over long-name slot with 13 "B", is listed
      with the "B" behind it. */
  lemma FullPartRunsOn(m: Meta, cluster: nat, offset: nat)
    requires MetaOk(m)
    ensures var name, left := Repeated(0x41), Repeated(0x42);
            && ValidName(name) && Slots(Placed(SlotsFor(name, m), cluster, offset))
            && Run(Scan([left], [], false), Placed(SlotsFor(name, m), cluster, offset)).out == [EntryFor(name + left, name, m, cluster, offset)]
  {
    var name, left := Repeated(0x41), Repeated(0x42);
    ShortUtf8(name);
    ShownBoth(name, left);
    NameRoundTrip(name, m, Scan([left], [], false), cluster, offset);
  }

  /** A name of 13 ASCII characters in front of 13 more. */
  lemma ShownBoth(name: seq<nat>, left: seq<nat>)
    requires |name| == |left| == 13 && Ascii(name) && Ascii(left) && (forall i :: 0 <= i < 13 ==> name[i] != 0 && left[i] != 0)
    ensures ShownAfter(name, [left]) == name + left
  {
    var both, pending := name + left, [left];
    ShownAsIs(both);
    assert Flatten(pending) == left + Flatten(pending[1..]);
    assert left + [] == left && Units(name) == name && Units(both) == both;
  }

  lemma {:induction false} ShortUtf8(name: seq<nat>)
    requires Ascii(name)
    ensures Utf8Len(name) == |name|
    decreases |name|
  {
    if name != [] {
      ShortUtf8(name[1..]);
    }
  }

  // ---- the loops that build and read them --------------------------------------------------

  /** The character of a part that byte `b` of its slot belongs to, 13 for none. */
  function CharOf(b: nat): nat {
    if 1 <= b < 11 then (b - 1) / 2 else if 14 <= b < 26 then 5 + (b - 14) / 2 else if 28 <= b < 32 then 11 + (b - 28) / 2 else 13
  }

  ghost predicate Filled(entry: seq<Byte>, first: Byte, part: seq<nat>, checksum: Byte, i: nat)
    requires |part| == 13
  {
    && |entry| == 32 && entry[0] == first
    && forall b: nat :: 0 < b < 32 ==> entry[b] == if CharOf(b) < i then LfnByte(first, part, checksum, b) else 0
  }

  lemma FilledStep(entry: seq<Byte>, entry2: seq<Byte>, first: Byte, part: seq<nat>, checksum: Byte, i: nat, i2: nat)
    requires |part| == 13 && i < 13 && i2 == i + 1 && Filled(entry, first, part, checksum, i)
    requires entry2 == entry[CharIndex(i) := ByteOf(part[i], 0)][CharIndex(i) + 1 := ByteOf(part[i], 1)]
    ensures Filled(entry2, first, part, checksum, i2)
  {
    BytesAt(first, part, checksum, i);
    forall b: nat | 0 < b < 32 ensures entry2[b] == if CharOf(b) < i2 then LfnByte(first, part, checksum, b) else 0 {
      assert CharOf(b) == i <==> b == CharIndex(i) || b == CharIndex(i) + 1;
    }
  }

  method LfnEntryBytes(ordinal: nat, part: seq<nat>, last: bool, checksum: Byte) returns (entry: seq<Byte>)
    requires |part| == 13 && ordinal < 0x40 && forall i :: 0 <= i < 13 ==> part[i] < 0x1_0000
    ensures entry == LfnSlot(ordinal, part, last, checksum)
  {
    var first: nat := if last then ordinal + 0x40 else ordinal;
    entry := seq(32, _ => 0);
    entry := entry[0 := first];
    var i: nat := 0;
    while i < 13
      invariant i <= 13 && Filled(entry, first, part, checksum, i)
    {
      ghost var before, i2 := entry, i + 1;
      var at, c := CharIndex(i), part[i];
      entry := entry[at := ByteOf(c, 0)][at + 1 := ByteOf(c, 1)];
      FilledStep(before, entry, first, part, checksum, i, i2);
      i := i + 1;
    }
    entry := entry[0x0B := 0x0F][0x0D := checksum];
    ghost var goal := LfnSlot(ordinal, part, last, checksum);
    assert forall b: nat :: b < 32 ==> goal[b] == LfnByte(first, part, checksum, b);
    assert forall b: nat :: b < 32 ==> entry[b] == goal[b];
  }

  /** One 13-character part out of the characters `rest`. */
  method BuildPart(rest: seq<nat>, last: bool) returns (part: seq<nat>)
    requires last || |rest| >= 13
    ensures part == PadPart(rest[..Least(|rest|, 13)])
  {
    part := seq(13, _ => 0xFFFF);
    var n: nat, k: nat := 0, 0;
    while k < |rest|
      invariant k <= |rest| && n == Least(k, 13)
      invariant part == rest[..n] + seq(13 - n, _ => 0xFFFF)
    {
      if n < 13 {
        part := part[n := rest[k]];
        n := n + 1;
      }
      k := k + 1;
    }
    if last && n < 13 {
      part := part[n := 0];
    }
  }

  lemma BuildStep(entries: seq<seq<Byte>>, entry: seq<Byte>, parts: seq<seq<nat>>, n: nat, n2: nat, checksum: Byte, goal: seq<seq<Byte>>)
    requires n == n2 + 1 <= |parts| < 0x40 && forall i :: 0 <= i < |parts| ==> |parts[i]| == 13
    requires entries + LfnSlots(parts, n, checksum) == goal && entry == LfnSlot(n, parts[n2], n == |parts|, checksum)
    ensures entries + [entry] + LfnSlots(parts, n2, checksum) == goal
  {
    assert entries + ([entry] + LfnSlots(parts, n2, checksum)) == entries + [entry] + LfnSlots(parts, n2, checksum);
  }

  /** All slots for a name, as `write_dir_entries` builds them. */
  method BuildEntries(name: seq<nat>, m: Meta) returns (entries: seq<seq<Byte>>)
    requires ValidName(name)
    ensures entries == SlotsFor(name, m)
  {
    var chars, sfn := Units(name), MakeSfn(name);
    var checksum := SfnChecksum(sfn, 0);
    PartsLen(chars);
    PartsWell(chars);
    entries := BuildNames(chars, (|chars| + 12) / 13, checksum);
    entries := entries + [SfnSlot(sfn, m)];
  }

  method BuildNames(chars: seq<nat>, count: nat, checksum: Byte) returns (entries: seq<seq<Byte>>)
    requires count == |Parts(chars)| < 0x40 && count == (|chars| + 12) / 13
    requires forall i :: 0 <= i < |chars| ==> chars[i] < 0x1_0000
    requires forall i :: 0 <= i < |Parts(chars)| ==> |Parts(chars)[i]| == 13
    ensures entries == LfnSlots(Parts(chars), count, checksum)
  {
    ghost var parts := Parts(chars);
    ghost var goal := LfnSlots(parts, count, checksum);
    entries := [];
    var n: nat := count;
    while n > 0
      invariant n <= count && entries + LfnSlots(parts, n, checksum) == goal
    {
      var i := n - 1;
      var entry := BuildOne(chars, i, count, checksum);
      BuildStep(entries, entry, parts, n, i, checksum, goal);
      entries := entries + [entry];
      n := i;
    }
    assert entries + [] == entries;
  }

  method BuildOne(chars: seq<nat>, i: nat, count: nat, checksum: Byte) returns (entry: seq<Byte>)
    requires i < count == |Parts(chars)| < 0x40 && count == (|chars| + 12) / 13
    requires forall i :: 0 <= i < |chars| ==> chars[i] < 0x1_0000
    ensures |Parts(chars)[i]| == 13 && entry == LfnSlot(i + 1, Parts(chars)[i], i + 1 == count, checksum)
  {
    PartsAt(chars, i);
    PartsWell(chars);
    var part := BuildPart(chars[i * 13..], i == count - 1);
    entry := LfnEntryBytes(i + 1, part, i == count - 1, checksum);
  }

  /** `assemble_lfn`: the parts in order, up to the first end mark. */
  method AssembleLfn(parts: seq<seq<nat>>) returns (name: seq<nat>)
    ensures name == Visible(Flatten(parts))
  {
    name := [];
    ghost var goal := Visible(Flatten(parts));
    var p: nat, stop := 0, false;
    assert parts[0..] == parts;
    while p < |parts| && !stop
      invariant p <= |parts|
      invariant if stop then name == goal else name + Visible(Flatten(parts[p..])) == goal
      decreases |parts| - p
    {
      var part := parts[p];
      ghost var later := Flatten(parts[p + 1..]);
      assert parts[p..][1..] == parts[p + 1..] && Flatten(parts[p..]) == part + later;
      name, stop := AppendPart(name, part, later, goal);
      p := p + 1;
    }
    assert name + [] == name;
  }

  method AppendPart(before: seq<nat>, part: seq<nat>, ghost later: seq<nat>, ghost goal: seq<nat>) returns (name: seq<nat>, stop: bool)
    requires before + Visible(part + later) == goal
    ensures if stop then name == goal else name + Visible(later) == goal
  {
    name, stop := before, false;
    var i: nat := 0;
    assert part[0..] == part;
    while i < |part| && !stop
      invariant i <= |part|
      invariant if stop then name == goal else name + Visible(part[i..] + later) == goal
      decreases |part| - i
    {
      var c := part[i];
      ghost var rest, rest2 := part[i..] + later, part[i + 1..] + later;
      assert rest[0] == c && rest[1..] == rest2;
      if c == 0 || c == 0xFFFF {
        stop := true;
      } else {
        var shown := if c < 0x80 then c else 0x3F;
        assert name + ([shown] + Visible(rest2)) == name + [shown] + Visible(rest2);
        name := name + [shown];
      }
      i := i + 1;
    }
    assert part[|part|..] + later == later;
  }
}
