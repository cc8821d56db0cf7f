/** Finding names (src/fat.rs:261-278, 345-349, 733-735): the parent directory of a path, and an
    entry of a directory by its name. */
module Lookup {
  import opened Wrappers
  import opened Bytes
  import opened Fat
  import opened FatVolume
  import opened Directory
  import opened LongName
  import opened Insertion
  import opened FatFiles
  import opened FatEntries

  // ---- comparing names ------------------------------------------------------------------------

  /** The bytes of one character. */
  function CharBytes(c: nat): (r: seq<nat>)
    ensures |r| == if c < 0x80 then 1 else if c < 0x800 then 2 else if c < 0x1_0000 then 3 else 4
  {
    if c < 0x80 then [c]
    else if c < 0x800 then [0xC0 + c / 0x40, 0x80 + c % 0x40]
    else if c < 0x1_0000 then [0xE0 + c / 0x1000, 0x80 + c / 0x40 % 0x40, 0x80 + c % 0x40]
    else [0xF0 + c / 0x4_0000, 0x80 + c / 0x1000 % 0x40, 0x80 + c / 0x40 % 0x40, 0x80 + c % 0x40]
  }

  /** A name's UTF-8 bytes. */
  function Utf8(name: seq<nat>): (r: seq<nat>)
    ensures |r| == Utf8Len(name)
  {
    if name == [] then [] else CharBytes(name[0]) + Utf8(name[1..])
  }

  lemma {:induction false} AsciiBytes(name: seq<nat>)
    requires Ascii(name)
    ensures Utf8(name) == name
  {
    if name != [] {
      AsciiBytes(name[1..]);
      assert name == [name[0]] + name[1..];
    }
  }

  /** An ASCII letter in lower case. */
  function Fold(b: nat): nat { if 0x41 <= b <= 0x5A then b + 0x20 else b }

  /** `name_matches`: equal bytes but for the case of ASCII letters. */
  predicate NameMatches(entry: seq<nat>, needle: seq<nat>) {
    |entry| == Utf8Len(needle) && forall i :: 0 <= i < |entry| ==> Fold(entry[i]) == Fold(Utf8(needle)[i])
  }

  lemma MatchesItself(name: seq<nat>)
    requires Ascii(name)
    ensures NameMatches(name, name)
  {
    AsciiBytes(name);
  }

  // ---- the first entry of a name ----------------------------------------------------------------

  /** `entries.into_iter().find(..)` */
  function FirstMatch(entries: seq<DirEntry>, name: seq<nat>): Option<DirEntry> {
    if entries == [] then None
    else if NameMatches(entries[0].name, name) then Some(entries[0])
    else FirstMatch(entries[1..], name)
  }

  predicate NoMatch(entries: seq<DirEntry>, name: seq<nat>) {
    forall i :: 0 <= i < |entries| ==> !NameMatches(entries[i].name, name)
  }

  lemma NoMatchTail(entries: seq<DirEntry>, name: seq<nat>)
    requires entries != [] && !NameMatches(entries[0].name, name)
    ensures NoMatch(entries, name) <==> NoMatch(entries[1..], name)
  {
    var rest := entries[1..];
    assert forall j :: 0 <= j < |rest| ==> rest[j] == entries[j + 1];
    if NoMatch(rest, name) {
      forall i | 0 <= i < |entries| ensures !NameMatches(entries[i].name, name) {
        assert i > 0 ==> entries[i] == rest[i - 1];
      }
    }
  }

  /** An entry is found exactly when one matches; none before it does. */
  lemma {:induction false} FirstMatchIs(entries: seq<DirEntry>, name: seq<nat>)
    ensures FirstMatch(entries, name).None? <==> NoMatch(entries, name)
    ensures FirstMatch(entries, name).Some? ==>
              exists i :: 0 <= i < |entries| && entries[i] == FirstMatch(entries, name).value && NameMatches(entries[i].name, name) && NoMatch(entries[..i], name)
  {
    if entries != [] && !NameMatches(entries[0].name, name) {
      var rest := entries[1..];
      FirstMatchIs(rest, name);
      NoMatchTail(entries, name);
      if FirstMatch(rest, name).Some? {
        var i :| 0 <= i < |rest| && rest[i] == FirstMatch(rest, name).value && NameMatches(rest[i].name, name) && NoMatch(rest[..i], name);
        var upTo := entries[..i + 1];
        assert upTo[1..] == rest[..i];
        NoMatchTail(upTo, name);
        assert entries[i + 1] == rest[i];
      }
    } else if entries != [] {
      assert NoMatch(entries[..0], name);
    }
  }

  /** What the lookup makes of a listing that was read; a failed read finds nothing. */
  function FoundIn(read: Result<seq<DirEntry>, FatError>, name: seq<nat>): Option<DirEntry> {
    if read.Ok? then FirstMatch(read.value, name) else None
  }

  /** A read of the directory on `c`: its listing, or failed. */
  ghost predicate ReadOf(g: Geometry, disk: Disk, c: seq<nat>, read: Result<seq<DirEntry>, FatError>)
    requires InRange(g, c)
  {
    read == Listing(g, disk, c) || read == Err(Io)
  }

  /** `find_dir_entry`: a directory that cannot be read counts as one without the name. */
  method FindDirEntry(v: Volume, ghost c: seq<nat>, parent: nat, name: seq<nat>) returns (r: Option<DirEntry>, ghost read: Result<seq<DirEntry>, FatError>)
    requires v.Valid() && c in v.chains && InRange(v.g, c) && parent == c[0]
    ensures ReadOf(v.g, v.disk, c, read) && r == FoundIn(read, name)
    ensures r.Some? ==> Listing(v.g, v.disk, c).Ok? && r.value in Listing(v.g, v.disk, c).value && NameMatches(r.value.name, name)
  {
    NewInRange(v.g, v.disk, v.fat, v.dirty, v.free, v.chains, c);
    var entries := ReadDir(v, c, parent);
    read := entries;
    r := None;
    if entries.Ok? {
      FirstMatchIs(entries.value, name);
      r := FirstMatch(entries.value, name);
    }
  }

  // ---- paths ---------------------------------------------------------------------------------------

  /** The first directory of that name. */
  function FirstDir(entries: seq<DirEntry>, name: seq<nat>): Option<DirEntry> {
    if entries == [] then None
    else if entries[0].isDir && NameMatches(entries[0].name, name) then Some(entries[0])
    else FirstDir(entries[1..], name)
  }

  lemma {:induction false} FirstDirIs(entries: seq<DirEntry>, name: seq<nat>)
    ensures FirstDir(entries, name).Some? ==> FirstDir(entries, name).value in entries && FirstDir(entries, name).value.isDir
  {
    if entries != [] && !(entries[0].isDir && NameMatches(entries[0].name, name)) {
      FirstDirIs(entries[1..], name);
    }
  }

  /** The chains `dirs` are a directory tree: every directory listed in one is another. */
  ghost predicate DirTree(g: Geometry, disk: Disk, chains: set<seq<nat>>, dirs: set<seq<nat>>) {
    && dirs <= chains && (forall c :: c in dirs ==> InRange(g, c))
    && forall c, e :: c in dirs && Listing(g, disk, c).Ok? && e in Listing(g, disk, c).value && e.isDir ==> HasDir(dirs, e.first)
  }

  ghost predicate HasDir(dirs: set<seq<nat>>, first: nat) { exists d :: d in dirs && |d| > 0 && d[0] == first }

  /** From directory `c` the path `parts` leads to directory `d`. */
  ghost predicate LeadsTo(g: Geometry, disk: Disk, dirs: set<seq<nat>>, c: seq<nat>, parts: seq<seq<nat>>, d: seq<nat>)
    requires forall c :: c in dirs ==> InRange(g, c)
    decreases |parts|
  {
    if parts == [] then d == c
    else
      var n := |parts| - 1;
      exists b :: b in dirs && LeadsTo(g, disk, dirs, c, parts[..n], b) && Enters(g, disk, b, parts[n], d)
  }

  /** The first directory of that name in `b` is `d`. */
  ghost predicate Enters(g: Geometry, disk: Disk, b: seq<nat>, name: seq<nat>, d: seq<nat>)
    requires InRange(g, b)
  {
    && Listing(g, disk, b).Ok? && FirstDir(Listing(g, disk, b).value, name).Some?
    && |d| > 0 && d[0] == FirstDir(Listing(g, disk, b).value, name).value.first
  }

  ghost predicate NotThere(g: Geometry, disk: Disk, b: seq<nat>, name: seq<nat>)
    requires InRange(g, b)
  {
    Listing(g, disk, b).Ok? && FirstDir(Listing(g, disk, b).value, name).None?
  }

  /** The directory loop of `resolve_parent`: the parts lead to the directory returned; when a
      name on the way is missing, the parts before it lead to a directory that lacks it. */
  method ResolveDirs(v: Volume, ghost dirs: set<seq<nat>>, ghost root: seq<nat>, rootCluster: nat, parts: seq<seq<nat>>)
    returns (r: Result<nat, FatError>, ghost d: seq<nat>, ghost k: nat)
    requires v.Valid() && DirTree(v.g, v.disk, v.chains, dirs) && root in dirs && |root| > 0 && root[0] == rootCluster
    ensures k <= |parts| && d in dirs && |d| > 0 && LeadsTo(v.g, v.disk, dirs, root, parts[..k], d)
    ensures r.Ok? ==> k == |parts| && r.value == d[0]
    ensures r.Err? ==> k < |parts| && match r.error
                                      case NotFound => NotThere(v.g, v.disk, d, parts[k])
                                      case Corrupt => Listing(v.g, v.disk, d) == Err(Corrupt)
                                      case e => e == Io
  {
    var cluster, i := rootCluster, 0;
    d, k := root, 0;
    while i < |parts|
      invariant k == i <= |parts| && d in dirs && |d| > 0 && d[0] == cluster
      invariant LeadsTo(v.g, v.disk, dirs, root, parts[..k], d)
    {
      NewInRange(v.g, v.disk, v.fat, v.dirty, v.free, v.chains, d);
      var entries := ReadDir(v, d, cluster);
      if entries.Err? {
        return Err(entries.error), d, k;
      }
      var dir := FirstDir(entries.value, parts[i]);
      if dir.None? {
        return Err(NotFound), d, k;
      }
      FirstDirIs(entries.value, parts[i]);
      assert HasDir(dirs, dir.value.first);
      ghost var b := d;
      d :| d in dirs && |d| > 0 && d[0] == dir.value.first;
      ghost var k2 := k + 1;
      Onward(v.g, v.disk, dirs, root, parts, k, k2, b, d);
      k := k2;
      cluster, i := dir.value.first, i + 1;
    }
    assert parts[..k] == parts;
    r := Ok(cluster);
  }

  const SLASH: nat := 0x2F

  function SlashAt(path: seq<nat>): (i: nat)
    ensures i <= |path| && (i < |path| ==> path[i] == SLASH) && forall k :: 0 <= k < i ==> path[k] != SLASH
  {
    if path == [] || path[0] == SLASH then 0 else 1 + SlashAt(path[1..])
  }

  /** `path.split('/')` without the empty parts. */
  function Components(path: seq<nat>): seq<seq<nat>>
    decreases |path|
  {
    if path == [] then []
    else
      var i := SlashAt(path);
      (if i == 0 then [] else [path[..i]]) + if i < |path| then Components(path[i + 1..]) else []
  }

  /** A path is the components before a slash followed by those behind it. */
  lemma {:induction false} ComponentsJoin(a: seq<nat>, b: seq<nat>)
    ensures Components(a + [SLASH] + b) == Components(a) + Components(b)
    decreases |a|
  {
    var path, i := a + [SLASH] + b, SlashAt(a);
    JoinedAt(a, b, path, i);
    SlashIs(path, i);
    if i < |a| {
      ComponentsJoin(a[i + 1..], b);
    } else {
      assert a[..i] == a;
    }
  }

  lemma JoinedAt(a: seq<nat>, b: seq<nat>, path: seq<nat>, i: nat)
    requires path == a + [SLASH] + b && i <= |a|
    ensures path[..i] == a[..i] && path[i] == (if i < |a| then a[i] else SLASH) && forall k :: 0 <= k < i ==> path[k] == a[k]
    ensures path[i + 1..] == if i < |a| then a[i + 1..] + [SLASH] + b else b
  {
  }

  lemma SlashIs(path: seq<nat>, i: nat)
    requires i < |path| && path[i] == SLASH && forall k :: 0 <= k < i ==> path[k] != SLASH
    ensures SlashAt(path) == i
  {
  }

  /** `resolve_parent`: the last component is the name; the others lead to the directory. */
  method ResolveParent(v: Volume, ghost dirs: set<seq<nat>>, ghost root: seq<nat>, rootCluster: nat, path: seq<nat>)
    returns (r: Result<nat, FatError>, name: seq<nat>, ghost d: seq<nat>, ghost k: nat)
    requires v.Valid() && DirTree(v.g, v.disk, v.chains, dirs) && root in dirs && |root| > 0 && root[0] == rootCluster
    ensures r == Err(InvalidName) <==> Components(path) == [] || Utf8Len(Components(path)[|Components(path)| - 1]) > MAX_NAME
    ensures r != Err(InvalidName) ==>
              var n := |Components(path)| - 1;
              && k <= n && d in dirs && |d| > 0 && LeadsTo(v.g, v.disk, dirs, root, Components(path)[..k], d)
              && (r.Ok? ==> k == n && r.value == d[0] && name == Components(path)[n])
              && (r == Err(NotFound) ==> k < n && NotThere(v.g, v.disk, d, Components(path)[k]))
              && (r.Err? && r != Err(NotFound) ==> r == Err(Io) || (k < n && Listing(v.g, v.disk, d) == Err(Corrupt)))
  {
    var parts := Components(path);
    var n := |parts| - 1;
    d, k := root, 0;
    if parts == [] || Utf8Len(parts[n]) > MAX_NAME {
      return Err(InvalidName), [], d, k;
    }
    name := parts[n];
    r, d, k := ResolveDirs(v, dirs, root, rootCluster, parts[..n]);
    assert parts[..n][..k] == parts[..k];
  }

  lemma Onward(g: Geometry, disk: Disk, dirs: set<seq<nat>>, root: seq<nat>, parts: seq<seq<nat>>, k: nat, k2: nat, b: seq<nat>, d: seq<nat>)
    requires forall c :: c in dirs ==> InRange(g, c)
    requires k < |parts| && k2 == k + 1 && b in dirs && LeadsTo(g, disk, dirs, root, parts[..k], b) && Enters(g, disk, b, parts[k], d)
    ensures LeadsTo(g, disk, dirs, root, parts[..k2], d)
  {
    assert parts[..k2][..k] == parts[..k] && parts[..k2][k] == parts[k];
  }

  // ---- finding what was entered ------------------------------------------------------------------------

  lemma {:induction false} FirstMatchConcat(a: seq<DirEntry>, b: seq<DirEntry>, name: seq<nat>)
    ensures FirstMatch(a + b, name) == if FirstMatch(a, name).Some? then FirstMatch(a, name) else FirstMatch(b, name)
  {
    if a == [] {
      assert a + b == b;
    } else {
      assert (a + b)[1..] == a[1..] + b;
      FirstMatchConcat(a[1..], b, name);
    }
  }

  /** A name that is entered where none matched is found, as exactly the entry made for it, if
      and only if no end mark stands before its place. */
  lemma EnteredFound(ss: seq<Slot>, n: nat, k: nat, was: seq<DirEntry>, now: seq<DirEntry>, name: seq<nat>, m: Meta, cluster: nat, offset: nat)
    requires Slots(ss) && n + k <= |ss| && IsInserted(ss, n, k, was, now, name, m, cluster, offset) && NoMatch(was, name)
    requires ValidName(name) && Ascii(name) && (|name| % 13 != 0 || Run(START, ss[..n]).parts == [])
    ensures FirstMatch(now, name) == if Run(START, ss[..n]).ended then None else Some(EntryFor(name, name, m, cluster, offset))
  {
    var st, rest := Run(START, ss[..n]), Found(ss[n + k..]);
    if st.ended {
      FirstMatchIs(was, name);
    } else {
      var e := EntryFor(name, name, m, cluster, offset);
      ShownHere(name, st.parts);
      StartNoMatch(was, st.out, name);
      FirstAfter(st.out, e, rest, name);
    }
  }

  lemma StartNoMatch(was: seq<DirEntry>, start: seq<DirEntry>, name: seq<nat>)
    requires NoMatch(was, name) && start <= was
    ensures NoMatch(start, name)
  {
  }

  lemma FirstAfter(before: seq<DirEntry>, e: DirEntry, rest: seq<DirEntry>, name: seq<nat>)
    requires NoMatch(before, name) && e.name == name && Ascii(name)
    ensures FirstMatch(before + [e] + rest, name) == Some(e)
  {
    MatchesItself(name);
    FirstMatchIs(before, name);
    FirstMatchConcat(before + [e], rest, name);
    FirstMatchConcat(before, [e], name);
  }

  lemma ShownHere(name: seq<nat>, parts: seq<seq<nat>>)
    requires ValidName(name) && Ascii(name) && (|name| % 13 != 0 || parts == [])
    ensures ShownAfter(name, parts) == name && Listed(name)
  {
    ShownAsIs(name);
    assert Behind(|name|, parts) == [];
    assert Units(name) + [] == Units(name);
  }
}
