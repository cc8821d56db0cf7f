/** Shared-memory objects (src/shm.rs): a table of reference-counted objects, each
    backed by one run of frames. The bytes in the frames are not modelled. */
module Shm {
  import opened Wrappers
  import opened Pmm

  /** `phys` is a frame number. */
  datatype SharedMem = SharedMem(phys: nat, pages: nat, size: nat, refcount: nat)

  type Objects = seq<Option<SharedMem>>

  predicate Live(objs: Objects, id: nat) { id < |objs| && objs[id].Some? }

  function RefCount(objs: Objects, id: nat): nat { if Live(objs, id) then objs[id].value.refcount else 0 }

  /** The frames backing an object. */
  function Backing(objs: Objects, id: nat): set<nat> {
    if Live(objs, id) then Range(objs[id].value.phys, objs[id].value.pages) else {}
  }

  /** The frames exist and hold the logical size. */
  predicate Fits(obj: SharedMem) { obj.phys + obj.pages <= FRAME_COUNT && obj.size <= obj.pages * FRAME_SIZE }

  /** All frames backing objects. */
  ghost function Used(objs: Objects): set<nat> { set f: nat | f < FRAME_COUNT && UsedBy(objs, f) }

  ghost predicate UsedBy(objs: Objects, f: nat) { exists id: nat :: f in Backing(objs, id) }

  /** Live objects are referenced, and their frames are in use and their own. */
  ghost predicate Sound(objs: Objects, free: set<nat>) {
    && (forall id: nat :: Live(objs, id) ==> objs[id].value.refcount > 0 && Fits(objs[id].value))
    && (forall id: nat :: Backing(objs, id) !! free)
    && (forall id: nat, id2: nat :: id != id2 ==> Backing(objs, id) !! Backing(objs, id2))
  }

  /** Writing one entry of the table. */
  lemma PlaceSound(objs: Objects, objs2: Objects, free: set<nat>, free2: set<nat>, id: nat, obj: Option<SharedMem>)
    requires Sound(objs, free) && id <= |objs| && objs2 == (if id < |objs| then objs[id := obj] else objs + [obj])
    requires obj.Some? ==> obj.value.refcount > 0 && Fits(obj.value)
    requires Backing(objs2, id) + free2 == Backing(objs, id) + free && Backing(objs2, id) !! free2
    ensures Sound(objs2, free2) && Used(objs2) + free2 == Used(objs) + free
    ensures forall k: nat :: k != id ==> Live(objs2, k) == Live(objs, k) && RefCount(objs2, k) == RefCount(objs, k) && Backing(objs2, k) == Backing(objs, k)
  {
    forall k: nat ensures k != id ==> Live(objs2, k) == Live(objs, k) && (Live(objs, k) ==> objs2[k] == objs[k]) && Backing(objs2, k) == Backing(objs, k) {
    }
    UsedSame(objs, objs2, free, free2, id);
    UsedSame(objs2, objs, free2, free, id);
  }

  lemma UsedSame(objs: Objects, objs2: Objects, free: set<nat>, free2: set<nat>, id: nat)
    requires forall k: nat :: k != id ==> Backing(objs2, k) == Backing(objs, k)
    requires Backing(objs2, id) + free2 == Backing(objs, id) + free
    requires forall k: nat, f: nat :: f in Backing(objs, k) || f in Backing(objs2, k) ==> f < FRAME_COUNT
    ensures Used(objs) + free <= Used(objs2) + free2
  {
    forall f: nat | f in Used(objs) + free ensures f in Used(objs2) + free2 {
      if f in Used(objs) {
        var k: nat :| f in Backing(objs, k);
        if k == id {
          assert f in Backing(objs2, id) + free2;
        } else {
          assert f in Backing(objs2, k);
        }
      } else {
        assert f in Backing(objs2, id) + free2;
      }
    }
  }

  /** There are `n` free frames in a row. */
  ghost predicate RunFree(free: set<nat>, last: nat, n: nat) { exists f: nat :: f + n <= last + 1 && FreeRun(free, f, n) }

  class ShmTable {
    const pmm: FrameBitmap
    var objs: Objects

    ghost predicate Valid()
      reads this, pmm, pmm.bits
    {
      pmm.Valid() && Sound(objs, pmm.Free())
    }

    /** The frames that are free or back an object. */
    ghost function Pool(): set<nat>
      requires pmm.Valid()
      reads this, pmm, pmm.bits
    {
      Used(objs) + pmm.Free()
    }

    constructor (frames: FrameBitmap)
      requires frames.Valid()
      ensures Valid() && pmm == frames && objs == []
    {
      pmm, objs := frames, [];
    }

    /** A new object without frames and with one reference, in the first free slot. */
    method Create() returns (id: nat)
      requires Valid()
      modifies this
      ensures Valid() && Pool() == old(Pool()) && !Live(old(objs), id) && Live(objs, id) && objs[id].value == SharedMem(0, 0, 0, 1)
      ensures id <= |old(objs)| && objs == (if id < |old(objs)| then old(objs)[id := objs[id]] else old(objs) + [objs[id]])
      ensures forall k: nat :: k < id ==> Live(old(objs), k)
    {
      var obj := Some(SharedMem(0, 0, 0, 1));
      id := 0;
      while id < |objs| && objs[id].Some?
        invariant id <= |objs| && forall k: nat :: k < id ==> Live(objs, k)
      {
        id := id + 1;
      }
      var after := if id < |objs| then objs[id := obj] else objs + [obj];
      PlaceSound(objs, after, pmm.Free(), pmm.Free(), id, obj);
      objs := after;
    }

    /** One more reference. */
    method Dup(id: nat)
      requires Valid()
      modifies this
      ensures Valid() && Pool() == old(Pool())
      ensures objs == Taken(old(objs), id)
    {
      if id < |objs| && objs[id].Some? {
        var obj := Some(objs[id].value.(refcount := objs[id].value.refcount + 1));
        PlaceSound(objs, objs[id := obj], pmm.Free(), pmm.Free(), id, obj);
        objs := objs[id := obj];
      }
    }

    /** One reference less. The last one gives the frames back and empties the slot. */
    method Close(id: nat)
      requires Valid()
      modifies this, pmm.bits
      ensures Valid() && Pool() == old(Pool())
      ensures objs == Dropped(old(objs), id)
      ensures pmm.Free() == old(pmm.Free()) + if RefCount(old(objs), id) == 1 then Backing(old(objs), id) else {}
    {
      if id < |objs| && objs[id].Some? {
        var obj := objs[id].value;
        var left := obj.refcount - 1;
        ghost var free := pmm.Free();
        if left == 0 {
          FreeFrames(obj.phys, obj.pages);
          PlaceSound(objs, objs[id := None], free, pmm.Free(), id, None);
          objs := objs[id := None];
        } else {
          var next := Some(obj.(refcount := left));
          PlaceSound(objs, objs[id := next], free, free, id, next);
          objs := objs[id := next];
        }
      }
    }

    method FreeFrames(phys: nat, pages: nat)
      requires pmm.Valid() && phys + pages <= FRAME_COUNT
      modifies pmm.bits
      ensures pmm.Free() == old(pmm.Free()) + Range(phys, pages)
    {
      var p: nat := 0;
      assert Range(phys, 0) == {};
      while p < pages
        invariant p <= pages && pmm.Free() == old(pmm.Free()) + Range(phys, p)
      {
        ghost var f, p2 := phys + p, p + 1;
        FrameAddress(f);
        assert Range(phys, p2) == Range(phys, p) + {f};
        pmm.FrameFree((phys + p) * FRAME_SIZE);
        p := p + 1;
      }
    }

    static lemma FrameAddress(f: nat)
      ensures f * FRAME_SIZE % FRAME_SIZE == 0 && f * FRAME_SIZE / FRAME_SIZE == f
    {
    }

    /** `ftruncate`: shrinking keeps the frames; growing beyond them takes a new run and
        gives the old one back. No other object changes, no frame is lost, and failure
        changes nothing. */
    method Truncate(id: nat, newSize: nat) returns (ok: bool)
      requires Valid()
      modifies this, pmm.bits
      ensures Valid() && Pool() == old(Pool()) && |objs| == |old(objs)|
      ensures !Live(old(objs), id) ==> !ok
      ensures !ok ==> objs == old(objs) && pmm.Free() == old(pmm.Free())
      ensures ok ==> objs[id].Some? && objs == old(objs)[id := objs[id]]
      ensures ok ==> objs[id].value == Resized(old(objs)[id].value, newSize, objs[id].value.phys)
      ensures Live(old(objs), id) ==> (ok <==> Stays(old(objs)[id].value, newSize) || RunFree(old(pmm.Free()), pmm.last, Pages(newSize)))
      ensures pmm.Free() + Backing(objs, id) == old(pmm.Free()) + Backing(old(objs), id)
      ensures ok && Stays(old(objs)[id].value, newSize) ==> pmm.Free() == old(pmm.Free()) && Backing(objs, id) == Backing(old(objs), id)
      ensures ok && !Stays(old(objs)[id].value, newSize) ==> Backing(objs, id) <= old(pmm.Free())
    {
      if id >= |objs| || objs[id].None? {
        return false;
      }
      var obj := objs[id].value;
      if Stays(obj, newSize) {
        PagesHold(newSize);
        var next := Some(obj.(size := newSize));
        PlaceSound(objs, objs[id := next], pmm.Free(), pmm.Free(), id, next);
        objs := objs[id := next];
        return true;
      }
      ok := Grow(id, newSize);
    }

    method Grow(id: nat, newSize: nat) returns (ok: bool)
      requires Valid() && Live(objs, id) && Pages(newSize) > objs[id].value.pages
      modifies this, pmm.bits
      ensures Valid() && Pool() == old(Pool())
      ensures ok <==> RunFree(old(pmm.Free()), pmm.last, Pages(newSize))
      ensures !ok ==> objs == old(objs) && pmm.Free() == old(pmm.Free())
      ensures ok ==> |objs| == |old(objs)| && objs[id].Some? && objs == old(objs)[id := objs[id]]
      ensures ok ==> Backing(objs, id) <= old(pmm.Free())
      ensures ok ==> objs[id].value == old(objs)[id].value.(phys := objs[id].value.phys, pages := Pages(newSize), size := newSize)
      ensures pmm.Free() + Backing(objs, id) == old(pmm.Free()) + Backing(old(objs), id)
    {
      var obj := objs[id].value;
      ghost var free := pmm.Free();
      var got := pmm.AllocContiguous(Pages(newSize));
      ok := got.Some?;
      if ok {
        assert forall f :: f in Range(got.value, Pages(newSize)) ==> f in free;
        PagesHold(newSize);
        FreeFrames(obj.phys, obj.pages);
        var next := Some(obj.(phys := got.value, pages := Pages(newSize), size := newSize));
        PlaceSound(objs, objs[id := next], free, pmm.Free(), id, next);
        objs := objs[id := next];
      }
    }
  }

  /** Frames needed for a size: rounded up, at least one. */
  function Pages(size: nat): nat {
    if (size + FRAME_SIZE - 1) / FRAME_SIZE == 0 then 1 else (size + FRAME_SIZE - 1) / FRAME_SIZE
  }

  /** A new size for which the object keeps its frames. */
  predicate Stays(obj: SharedMem, newSize: nat) { newSize <= obj.size || Pages(newSize) <= obj.pages }

  /** The object after a change of size; `phys` is where it is afterwards. */
  function Resized(obj: SharedMem, newSize: nat, phys: nat): SharedMem {
    if Stays(obj, newSize) then obj.(size := newSize) else obj.(phys := phys, pages := Pages(newSize), size := newSize)
  }

  lemma PagesHold(size: nat)
    ensures size <= Pages(size) * FRAME_SIZE
  {
  }

  /** The table after one reference to `id` is dropped. */
  function Dropped(objs: Objects, id: nat): (r: Objects)
    ensures |r| == |objs|
    ensures forall k: nat :: k != id ==> Live(r, k) == Live(objs, k) && RefCount(r, k) == RefCount(objs, k) && Backing(r, k) == Backing(objs, k)
    ensures RefCount(objs, id) > 0 ==> RefCount(r, id) == RefCount(objs, id) - 1 && (Live(r, id) <==> RefCount(objs, id) > 1)
  {
    if !Live(objs, id) || objs[id].value.refcount == 0 then objs
    else if objs[id].value.refcount == 1 then objs[id := None]
    else objs[id := Some(objs[id].value.(refcount := objs[id].value.refcount - 1))]
  }

  /** The table after one more reference to `id` is taken. */
  function Taken(objs: Objects, id: nat): (r: Objects)
    ensures |r| == |objs|
    ensures forall k: nat :: Live(r, k) == Live(objs, k)
    ensures forall k: nat :: RefCount(r, k) == RefCount(objs, k) + if k == id && Live(objs, k) then 1 else 0
  {
    if Live(objs, id) then objs[id := Some(objs[id].value.(refcount := objs[id].value.refcount + 1))] else objs
  }

  function TakenAll(objs: Objects, ids: seq<nat>): (r: Objects)
    ensures forall k: nat :: Live(r, k) == Live(objs, k)
    decreases |ids|
  {
    if ids == [] then objs else TakenAll(Taken(objs, ids[0]), ids[1..])
  }

  function DroppedAll(objs: Objects, ids: seq<nat>): Objects
    decreases |ids|
  {
    if ids == [] then objs else DroppedAll(Dropped(objs, ids[0]), ids[1..])
  }

  /** Taking references adds them up. */
  lemma {:induction false} TakenCount(objs: Objects, ids: seq<nat>, k: nat)
    requires Live(objs, k)
    ensures RefCount(TakenAll(objs, ids), k) == RefCount(objs, k) + multiset(ids)[k]
    decreases |ids|
  {
    if ids != [] {
      assert ids == [ids[0]] + ids[1..];
      TakenCount(Taken(objs, ids[0]), ids[1..], k);
    }
  }

  /** Dropping references that are there subtracts them. */
  lemma {:induction false} DroppedCount(objs: Objects, ids: seq<nat>, k: nat)
    requires forall i: nat :: multiset(ids)[i] <= RefCount(objs, i)
    ensures RefCount(DroppedAll(objs, ids), k) == RefCount(objs, k) - multiset(ids)[k]
    decreases |ids|
  {
    if ids != [] {
      assert ids == [ids[0]] + ids[1..];
      assert multiset(ids)[ids[0]] <= RefCount(objs, ids[0]);
      forall i: nat ensures multiset(ids[1..])[i] <= RefCount(Dropped(objs, ids[0]), i) {
        assert multiset(ids)[i] <= RefCount(objs, i);
      }
      DroppedCount(Dropped(objs, ids[0]), ids[1..], k);
    }
  }

  /** Every object is referenced. */
  ghost predicate Counted(objs: Objects) { forall id: nat :: Live(objs, id) ==> objs[id].value.refcount > 0 }

  /** Dropping what was just taken leaves the table as it was, whatever the ids are. */
  lemma {:induction false} TakeDrop(objs: Objects, ids: seq<nat>)
    requires Counted(objs)
    ensures DroppedAll(TakenAll(objs, ids), ids) == objs
    decreases |ids|
  {
    if ids != [] {
      var x, rest := ids[0], ids[1..];
      DropCommutes(objs, x, rest);
      TakeDrop(objs, rest);
    }
  }

  lemma {:induction false} DropCommutes(objs: Objects, x: nat, rest: seq<nat>)
    requires Counted(objs)
    ensures Dropped(TakenAll(Taken(objs, x), rest), x) == TakenAll(objs, rest)
    decreases |rest|
  {
    if rest == [] {
      assert Dropped(Taken(objs, x), x) == objs;
    } else {
      var y := rest[0];
      assert Taken(Taken(objs, x), y) == Taken(Taken(objs, y), x);
      DropCommutes(Taken(objs, y), x, rest[1..]);
    }
  }

  /** A reference for every id of a list. */
  method DupEach(shm: ShmTable, ids: seq<nat>)
    requires shm.Valid()
    modifies shm
    ensures shm.Valid() && shm.Pool() == old(shm.Pool()) && shm.objs == TakenAll(old(shm.objs), ids)
  {
    var i: nat := 0;
    assert ids[0..] == ids;
    while i < |ids|
      invariant i <= |ids| && shm.Valid() && shm.Pool() == old(shm.Pool())
      invariant TakenAll(shm.objs, ids[i..]) == TakenAll(old(shm.objs), ids)
    {
      assert ids[i..][1..] == ids[i + 1..];
      shm.Dup(ids[i]);
      i := i + 1;
    }
  }

  method CloseEach(shm: ShmTable, ids: seq<nat>)
    requires shm.Valid()
    modifies shm, shm.pmm.bits
    ensures shm.Valid() && shm.Pool() == old(shm.Pool()) && shm.objs == DroppedAll(old(shm.objs), ids)
  {
    var i: nat := 0;
    assert ids[0..] == ids;
    while i < |ids|
      invariant i <= |ids| && shm.Valid() && shm.Pool() == old(shm.Pool())
      invariant DroppedAll(shm.objs, ids[i..]) == DroppedAll(old(shm.objs), ids)
    {
      assert ids[i..][1..] == ids[i + 1..];
      shm.Close(ids[i]);
      i := i + 1;
    }
  }
}
