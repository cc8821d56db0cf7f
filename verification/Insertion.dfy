/** What a directory listing becomes when the slots of a name are put over a run of its
    slots (src/fat.rs:155-226, 500-634), on values. */
module Insertion {
  import opened Bytes
  import opened Directory
  import opened LongName

  const START: Scan := Scan([], [], false)

  /** Everything a fresh scan finds in the slots `b`. */
  ghost function Found(b: seq<Slot>): seq<DirEntry>
    requires Slots(b)
  {
    Run(START, b).out
  }

  ghost predicate IsFree(s: Slot)
    requires |s.bytes| == 32
  {
    s.bytes[0] == 0x00 || s.bytes[0] == 0xE5
  }

  ghost predicate FreeSlots(run: seq<Slot>) { Slots(run) && forall k :: 0 <= k < |run| ==> IsFree(run[k]) }

  /** One of the slots is an end mark. */
  ghost predicate HasEnd(run: seq<Slot>)
    requires Slots(run)
  {
    exists k :: 0 <= k < |run| && run[k].bytes[0] == 0x00
  }

  /** Free slots yield nothing; the scan ends in them exactly at an end mark, and otherwise
      leaves no long-name parts. */
  lemma {:induction false} RunOverFree(st: Scan, run: seq<Slot>)
    requires FreeSlots(run) && !st.ended
    ensures Run(st, run).out == st.out && (Run(st, run).ended <==> HasEnd(run))
    ensures run != [] && !HasEnd(run) ==> Run(st, run).parts == []
    decreases run
  {
    if run != [] {
      var next := Step(st, run[0]);
      assert forall k :: 0 <= k < |run| - 1 ==> run[1..][k] == run[k + 1];
      assert HasEnd(run) <==> run[0].bytes[0] == 0x00 || HasEnd(run[1..]) by {
        if HasEnd(run[1..]) {
          var k :| 0 <= k < |run| - 1 && run[1..][k].bytes[0] == 0x00;
          assert run[k + 1].bytes[0] == 0x00;
        }
      }
      if next.ended {
        RunEnded(next, run[1..]);
      } else {
        RunOverFree(next, run[1..]);
      }
    }
  }

  /** The listing with the entry for `name` behind what `before` lists, and then what
      `after` lists; nothing is listed behind an end mark in `before`. */
  ghost function WithEntry(before: seq<Slot>, after: seq<Slot>, name: seq<nat>, m: Meta, cluster: nat, offset: nat): seq<DirEntry>
    requires Slots(before) && Slots(after)
  {
    var st := Run(START, before);
    if st.ended then st.out
    else Added(st.out, EntryFor(ShownAfter(name, st.parts), name, m, cluster, offset)) + Found(after)
  }

  /** Putting the slots of a name between `before` and `after`. */
  lemma NewListing(before: seq<Slot>, after: seq<Slot>, name: seq<nat>, m: Meta, cluster: nat, offset: nat)
    requires Slots(before) && Slots(after) && ValidName(name) && MetaOk(m) && Slots(Placed(SlotsFor(name, m), cluster, offset))
    ensures Run(START, before + Placed(SlotsFor(name, m), cluster, offset) + after).out == WithEntry(before, after, name, m, cluster, offset)
  {
    var st, added := Run(START, before), Placed(SlotsFor(name, m), cluster, offset);
    RunConcat(START, before + added, after);
    RunConcat(START, before, added);
    if st.ended {
      RunEnded(st, added);
      RunEnded(st, after);
    } else {
      NameRoundTrip(name, m, st, cluster, offset);
      RunShift(Run(st, added), START, after);
    }
  }

  /** What was listed, when the run was free. */
  lemma OldListing(before: seq<Slot>, run: seq<Slot>, after: seq<Slot>)
    requires Slots(before) && FreeSlots(run) && run != [] && Slots(after)
    ensures var st := Run(START, before);
            Run(START, before + run + after).out == if st.ended || HasEnd(run) then st.out else st.out + Found(after)
  {
    var st := Run(START, before);
    RunConcat(START, before + run, after);
    RunConcat(START, before, run);
    if st.ended {
      RunEnded(st, run);
      RunEnded(st, after);
    } else {
      RunOverFree(st, run);
      if HasEnd(run) {
        RunEnded(Run(st, run), after);
      } else {
        RunShift(Run(st, run), START, after);
      }
    }
  }

  // ---- which entries survive, whatever the run held ---------------------------------------------

  /** No two slots are at the same place. */
  ghost predicate PlacesDiffer(ss: seq<Slot>) {
    forall i, j :: 0 <= i < j < |ss| ==> !SamePlace(ss[i], ss[j])
  }

  predicate SamePlace(s: Slot, t: Slot) { s.cluster == t.cluster && s.offset == t.offset }

  predicate IsAt(e: DirEntry, s: Slot) { e.cluster == s.cluster && e.offset == s.offset }

  /** Every entry a scan adds is at one of the slots scanned. */
  lemma {:induction false} FoundAt(st: Scan, ss: seq<Slot>, e: DirEntry) returns (k: nat)
    requires Slots(ss) && st.out == [] && e in Run(st, ss).out
    ensures k < |ss| && IsAt(e, ss[k])
  {
    k := EntryComesFrom(st, ss, e);
  }

  /** Some slot of the run yields an entry when the scan comes to it. */
  ghost predicate YieldsIn(st: Scan, run: seq<Slot>, k: nat, e: DirEntry)
    requires Slots(run) && k < |run|
  {
    Yields(Run(st, run[..k]), run[k], e)
  }

  ghost predicate NoneYields(st: Scan, run: seq<Slot>)
    requires Slots(run)
  {
    forall k: nat, e :: k < |run| ==> !YieldsIn(st, run, k, e)
  }

  lemma {:induction false} YieldsNothing(st: Scan, run: seq<Slot>)
    requires Slots(run)
    ensures NoneYields(st, run) <==> Run(st, run).out == st.out
    decreases |run|
  {
    if run != [] {
      var n := |run| - 1;
      YieldsNothing(st, run[..n]);
      YieldsLast(st, run, n);
      Grows(st, run[..n]);
      RunLast(st, run, n);
    }
  }

  lemma RunLast(st: Scan, run: seq<Slot>, n: nat)
    requires Slots(run) && |run| == n + 1
    ensures Run(st, run) == Step(Run(st, run[..n]), run[n])
  {
    var s, last := Run(st, run[..n]), [run[n]];
    assert run == run[..n] + last;
    RunConcat(st, run[..n], last);
    assert Run(s, last) == Run(Step(s, run[n]), last[1..]);
  }

  lemma YieldsLast(st: Scan, run: seq<Slot>, n: nat)
    requires Slots(run) && |run| == n + 1
    ensures NoneYields(st, run) <==> NoneYields(st, run[..n]) && Step(Run(st, run[..n]), run[n]).out == Run(st, run[..n]).out
  {
    var front, s := run[..n], Run(st, run[..n]);
    forall k: nat, e | k < n ensures YieldsIn(st, front, k, e) == YieldsIn(st, run, k, e) {
      assert front[..k] == run[..k];
    }
    if Step(s, run[n]).out != s.out {
      assert YieldsIn(st, run, n, EntryOf(NameOf(s.parts, run[n].bytes), run[n]));
    }
    if NoneYields(st, run) {
      forall k: nat, e | k < n ensures !YieldsIn(st, front, k, e) {
        assert !YieldsIn(st, run, k, e);
      }
    }
    if NoneYields(st, front) && Step(s, run[n]).out == s.out {
      forall k: nat, e | k < n + 1 ensures !YieldsIn(st, run, k, e) {
        assert k < n ==> !YieldsIn(st, front, k, e);
      }
    }
  }

  lemma {:induction false} Grows(st: Scan, ss: seq<Slot>)
    requires Slots(ss)
    ensures |st.out| <= |Run(st, ss).out| && Run(st, ss).out[..|st.out|] == st.out
    decreases |ss|
  {
    if ss != [] {
      Grows(Step(st, ss[0]), ss[1..]);
    }
  }

  /** With long-name parts pending from before, the next entry of `after` (whose own parts
      so far are `own`) is not listed or has the name it has without them. */
  ghost predicate NextKept(parts: seq<seq<nat>>, own: seq<seq<nat>>, after: seq<Slot>)
    requires Slots(after)
    decreases |after|
  {
    if after == [] || IsFree(after[0]) then true
    else if after[0].bytes[0x0B] == 0x0F then NextKept(parts, [PartOf(after[0].bytes)] + own, after[1..])
    else
      var shown := NameOf(own + parts, after[0].bytes);
      !Listed(shown) || shown == NameOf(own, after[0].bytes)
  }

  /** Everything the scan finds with parts pending is found without them as well, exactly
      when the next entry keeps its name. */
  lemma {:induction false} TailKept(parts: seq<seq<nat>>, own: seq<seq<nat>>, after: seq<Slot>)
    requires Slots(after) && PlacesDiffer(after)
    ensures Subset(Run(Scan(own + parts, [], false), after).out, Run(Scan(own, [], false), after).out) <==> NextKept(parts, own, after)
    decreases |after|
  {
    if after != [] {
      var s, rest := after[0], after[1..];
      assert after == [s] + rest;
      TailPlaces(s, rest);
      if s.bytes[0] == 0x00 {
        RunEnded(Scan(own + parts, [], true), rest);
        RunEnded(Scan(own, [], true), rest);
      } else if s.bytes[0] == 0xE5 {
      } else if s.bytes[0x0B] == 0x0F {
        PartsAssoc([PartOf(s.bytes)], own, parts);
        TailKept(parts, [PartOf(s.bytes)] + own, rest);
      } else {
        var t, u := Step(Scan(own + parts, [], false), s), Step(Scan(own, [], false), s);
        RunShift(t, START, rest);
        RunShift(u, START, rest);
        HeadKept(own + parts, own, s, rest);
      }
    }
  }

  ghost predicate Subset(a: seq<DirEntry>, b: seq<DirEntry>) { forall e :: e in a ==> e in b }

  lemma PartsAssoc(a: seq<seq<nat>>, b: seq<seq<nat>>, c: seq<seq<nat>>)
    ensures a + (b + c) == a + b + c
  {
  }

  lemma TailPlaces(s: Slot, rest: seq<Slot>)
    requires PlacesDiffer([s] + rest)
    ensures PlacesDiffer(rest) && forall k :: 0 <= k < |rest| ==> !SamePlace(s, rest[k])
  {
    var all := [s] + rest;
    forall i, j | 0 <= i < j < |rest| ensures !SamePlace(rest[i], rest[j]) {
      assert all[i + 1] == rest[i] && all[j + 1] == rest[j];
    }
    forall k | 0 <= k < |rest| ensures !SamePlace(s, rest[k]) {
      assert all[0] == s && all[k + 1] == rest[k];
    }
  }

  /** The entry of the first slot under two names. */
  lemma HeadKept(a: seq<seq<nat>>, b: seq<seq<nat>>, s: Slot, rest: seq<Slot>)
    requires |s.bytes| == 32 && Slots(rest) && forall k :: 0 <= k < |rest| ==> !SamePlace(s, rest[k])
    requires !IsFree(s) && s.bytes[0x0B] != 0x0F
    ensures Subset(Step(Scan(a, [], false), s).out + Found(rest), Step(Scan(b, [], false), s).out + Found(rest))
            <==> (!Listed(NameOf(a, s.bytes)) || NameOf(a, s.bytes) == NameOf(b, s.bytes))
  {
    var x, y, f := EntryOf(NameOf(a, s.bytes), s), EntryOf(NameOf(b, s.bytes), s), Found(rest);
    var xs, ys := Step(Scan(a, [], false), s).out, Step(Scan(b, [], false), s).out;
    assert xs == (if Listed(NameOf(a, s.bytes)) then [x] else []) && ys == (if Listed(NameOf(b, s.bytes)) then [y] else []);
    if Listed(NameOf(a, s.bytes)) {
      if x in f {
        var k := FoundAt(START, rest, x);
      }
      assert x in xs + f;
      assert x in ys + f <==> x in ys;
    }
  }

  /** Every entry listed before is still listed exactly when, up to an end mark, no slot of
      the overwritten run yielded one and no long name reached out of it. */
  lemma SurvivesIff(before: seq<Slot>, run: seq<Slot>, after: seq<Slot>, name: seq<nat>, m: Meta, cluster: nat, offset: nat)
    requires Slots(before) && Slots(run) && Slots(after) && PlacesDiffer(before + run + after)
    requires EntryFor(ShownAfter(name, Run(START, before).parts), name, m, cluster, offset) !in Run(START, before + run + after).out
    ensures var st := Run(START, before);
            var st1 := Run(st, run);
            Subset(Run(START, before + run + after).out, WithEntry(before, after, name, m, cluster, offset))
            <==> (st.ended || (NoneYields(st, run) && (st1.ended || NextKept(st1.parts, [], after))))
  {
    var st := Run(START, before);
    var st1 := Run(st, run);
    RunConcat(START, before + run, after);
    RunConcat(START, before, run);
    YieldsNothing(st, run);
    if st.ended {
      RunEnded(st, run);
      RunEnded(st, after);
    } else {
      RunShift(st, START.(parts := st.parts), run);
      var mid := Run(Scan(st.parts, [], false), run).out;
      assert st1.out == st.out + mid;
      RunShift(st1, Scan(st1.parts, [], st1.ended), after);
      var tail := Run(Scan(st1.parts, [], st1.ended), after).out;
      assert Run(START, before + run + after).out == st.out + mid + tail;
      Survivors(before, run, after, st.out, mid, tail, st, st1, EntryFor(ShownAfter(name, st.parts), name, m, cluster, offset));
    }
  }

  lemma Survivors(before: seq<Slot>, run: seq<Slot>, after: seq<Slot>, was: seq<DirEntry>, mid: seq<DirEntry>, tail: seq<DirEntry>,
                  st: Scan, st1: Scan, e: DirEntry)
    requires Slots(before) && Slots(run) && Slots(after) && PlacesDiffer(before + run + after)
    requires st == Run(START, before) && st1 == Run(st, run) && was == st.out && mid == Run(Scan(st.parts, [], false), run).out
    requires tail == Run(Scan(st1.parts, [], st1.ended), after).out && e !in was + mid + tail
    ensures Subset(was + mid + tail, Added(was, e) + Found(after))
            <==> (mid == [] && (st1.ended || NextKept(st1.parts, [], after)))
  {
    Parted(before, run, after);
    forall x | x in mid ensures x !in was && x !in Found(after) {
      var k := FoundAt(Scan(st.parts, [], false), run, x);
      if x in was {
        var j := FoundAt(START, before, x);
      }
      if x in Found(after) {
        var j := FoundAt(START, after, x);
      }
    }
    forall x | x in tail ensures x !in was {
      var k := FoundAt(Scan(st1.parts, [], st1.ended), after, x);
      if x in was {
        var j := FoundAt(START, before, x);
      }
    }
    if st1.ended {
      RunEnded(Scan(st1.parts, [], true), after);
    } else {
      assert [] + st1.parts == st1.parts;
      TailKept(st1.parts, [], after);
    }
    if mid != [] {
      assert mid[0] in was + mid + tail && mid[0] in mid;
    }
    assert forall x :: x in was + mid + tail <==> x in was || x in mid || x in tail;
    assert forall x :: x in Added(was, e) + Found(after) <==> x in was || x in Found(after) || (x == e && Listed(e.name));
  }

  /** Slots of different parts are at different places. */
  lemma Parted(before: seq<Slot>, run: seq<Slot>, after: seq<Slot>)
    requires PlacesDiffer(before + run + after)
    ensures PlacesDiffer(after)
    ensures forall i, j :: 0 <= i < |before| && 0 <= j < |run| ==> !SamePlace(before[i], run[j])
    ensures forall i, j :: 0 <= i < |before| && 0 <= j < |after| ==> !SamePlace(before[i], after[j])
    ensures forall i, j :: 0 <= i < |run| && 0 <= j < |after| ==> !SamePlace(run[i], after[j])
  {
    var ss, n, k := before + run + after, |before|, |run|;
    assert forall i :: 0 <= i < n ==> ss[i] == before[i];
    assert forall i :: 0 <= i < k ==> ss[n + i] == run[i];
    assert forall i :: 0 <= i < |after| ==> ss[n + k + i] == after[i];
  }
}
