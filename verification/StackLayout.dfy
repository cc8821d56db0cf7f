/** The initial stack of a Linux process (src/process.rs:1059-1243): strings, program
    headers and random bytes above a table of pointers and auxiliary entries, and what a
    program finds when it reads them as section 3.4 of the System V AMD64 psABI says. */
module StackLayout {
  import opened Wrappers
  import opened Bytes

  type Text = seq<Byte>

  // ---- strings -------------------------------------------------------------------------------

  /** The strings one after another, each with its NUL. */
  function Strings(ss: seq<Text>): seq<Byte> {
    if ss == [] then [] else Strings(ss[..|ss| - 1]) + ss[|ss| - 1] + [0]
  }

  /** Where each string starts when the first one starts at `base`. */
  function Offsets(ss: seq<Text>, base: nat): (r: seq<nat>)
    ensures |r| == |ss|
  {
    if ss == [] then [] else Offsets(ss[..|ss| - 1], base) + [base + |Strings(ss[..|ss| - 1])|]
  }

  /** The bytes before the first NUL. */
  function UntilNul(b: seq<Byte>): Text {
    if b == [] || b[0] == 0 then [] else [b[0]] + UntilNul(b[1..])
  }

  predicate NulFree(s: Text) { forall i :: 0 <= i < |s| ==> s[i] != 0 }

  lemma {:induction false} UntilNulIs(s: Text, rest: seq<Byte>)
    requires NulFree(s)
    ensures UntilNul(s + [0] + rest) == s
  {
    if s == [] {
      assert s + [0] + rest == [0] + rest;
    } else {
      UntilNulIs(s[1..], rest);
      assert (s + [0] + rest)[1..] == s[1..] + [0] + rest;
    }
  }

  lemma BytesAssoc(a: seq<Byte>, b: seq<Byte>, c: seq<Byte>)
    ensures a + b + c == a + (b + c)
  {
  }

  /** Around string `i`. */
  lemma {:induction false} StringAt(ss: seq<Text>, i: nat, base: nat) returns (pre: seq<Byte>, rest: seq<Byte>)
    requires i < |ss|
    ensures Strings(ss) == pre + (ss[i] + [0]) + rest && Offsets(ss, base)[i] == base + |pre|
    decreases |ss|
  {
    var k := |ss| - 1;
    var front, last := ss[..k], ss[k];
    BytesAssoc(Strings(front), last, [0]);
    if i == k {
      pre, rest := Strings(front), [];
    } else {
      pre, rest := StringAt(front, i, base);
      BytesAssoc(pre + (ss[i] + [0]), rest, last + [0]);
      rest := rest + (last + [0]);
    }
  }

  // ---- words ----------------------------------------------------------------------------------

  /** The words as little-endian bytes. */
  function Words64(ws: seq<nat>): (r: seq<Byte>)
    ensures |r| == 8 * |ws|
  {
    if ws == [] then [] else Le64(ws[0]) + Words64(ws[1..])
  }

  /** The first `n` words of a memory, as far as it goes. */
  function ReadWords(mem: seq<Byte>, n: nat): seq<nat>
    decreases n
  {
    if n == 0 || |mem| < 8 then [] else [FromLe(mem[..8])] + ReadWords(mem[8..], n - 1)
  }

  ghost predicate WordsOk(ws: seq<nat>) { forall i :: 0 <= i < |ws| ==> ws[i] < WORD_LIMIT }

  /** Words read back as they were written. */
  lemma {:induction false} WordsReadBack(ws: seq<nat>, rest: seq<Byte>)
    requires WordsOk(ws)
    ensures ReadWords(Words64(ws) + rest, |ws|) == ws
    decreases |ws|
  {
    if ws != [] {
      var first, tail := Le64(ws[0]), ws[1..];
      var mem := Words64(ws) + rest;
      BytesAssoc(first, Words64(tail), rest);
      assert mem[..8] == first && mem[8..] == Words64(tail) + rest;
      Le64RoundTrip(ws[0]);
      WordsReadBack(tail, rest);
    }
  }

  lemma {:induction false} WordsConcat(a: seq<nat>, b: seq<nat>)
    ensures Words64(a + b) == Words64(a) + Words64(b)
    decreases |a|
  {
    if a == [] {
      assert a + b == b;
    } else {
      WordsConcat(a[1..], b);
      assert (a + b)[1..] == a[1..] + b && (a + b)[0] == a[0];
      BytesAssoc(Le64(a[0]), Words64(a[1..]), Words64(b));
    }
  }

  // ---- the auxiliary vector ---------------------------------------------------------------------

  const AT_NULL: nat := 0
  const AT_PHDR: nat := 3
  const AT_PHENT: nat := 4
  const AT_PHNUM: nat := 5
  const AT_PAGESZ: nat := 6
  const AT_BASE: nat := 7
  const AT_FLAGS: nat := 8
  const AT_ENTRY: nat := 9
  const AT_UID: nat := 11
  const AT_EUID: nat := 12
  const AT_GID: nat := 13
  const AT_EGID: nat := 14
  const AT_HWCAP: nat := 16
  const AT_CLKTCK: nat := 17
  const AT_SECURE: nat := 23
  const AT_RANDOM: nat := 25
  const AT_HWCAP2: nat := 26
  const AT_EXECFN: nat := 31

  /** What the program header says of the program, and where its table is mapped, if a
      segment covers it. */
  datatype Facts = Facts(entry: nat, phentsize: nat, phnum: nat, base: nat, mapped: Option<nat>)

  ghost predicate FactsOk(f: Facts) {
    && f.entry < WORD_LIMIT && f.phentsize < WORD_LIMIT && f.phnum < WORD_LIMIT && f.base < WORD_LIMIT
    && (f.mapped.Some? ==> f.mapped.value < WORD_LIMIT)
  }

  /** Entry `i` of those every program gets. */
  function FixedPair(f: Facts, phdr: nat, random: nat, i: nat): (nat, nat)
    requires i < 16
  {
    match i
    case 0 => (AT_PHENT, f.phentsize)
    case 1 => (AT_PHNUM, f.phnum)
    case 2 => (AT_PAGESZ, 4096)
    case 3 => (AT_BASE, f.base)
    case 4 => (AT_FLAGS, 0)
    case 5 => (AT_ENTRY, f.entry)
    case 6 => (AT_UID, 0)
    case 7 => (AT_EUID, 0)
    case 8 => (AT_GID, 0)
    case 9 => (AT_EGID, 0)
    case 10 => (AT_HWCAP, 0)
    case 11 => (AT_HWCAP2, 0)
    case 12 => (AT_CLKTCK, 100)
    case 13 => (AT_SECURE, 0)
    case 14 => (AT_PHDR, phdr)
    case _ => (AT_RANDOM, random)
  }

  /** Entry `i` of the vector: AT_EXECFN only for a named program, AT_NULL at the end. */
  function AuxPair(f: Facts, phdr: nat, random: nat, execfn: Option<nat>, i: nat): (nat, nat) {
    if i < 16 then FixedPair(f, phdr, random, i) else if execfn.Some? && i == 16 then (AT_EXECFN, execfn.value) else (AT_NULL, 0)
  }

  function Aux(f: Facts, phdr: nat, random: nat, execfn: Option<nat>): (r: seq<(nat, nat)>) {
    seq(if execfn.Some? then 18 else 17, i requires i >= 0 => AuxPair(f, phdr, random, execfn, i))
  }

  function Flat(aux: seq<(nat, nat)>): (r: seq<nat>)
    ensures |r| == 2 * |aux|
    ensures forall i :: 0 <= i < |aux| ==> r[2 * i] == aux[i].0 && r[2 * i + 1] == aux[i].1
  {
    if aux == [] then [] else Flat(aux[..|aux| - 1]) + [aux[|aux| - 1].0, aux[|aux| - 1].1]
  }

  function Shifted(offs: seq<nat>, base: nat): (r: seq<nat>)
    ensures |r| == |offs| && forall i :: 0 <= i < |offs| ==> r[i] == base + offs[i]
  {
    seq(|offs|, i requires 0 <= i < |offs| => base + offs[i])
  }

  /** The words of the table. */
  function TableWords(args: seq<nat>, envs: seq<nat>, aux: seq<(nat, nat)>): seq<nat> {
    [|args|] + args + [0] + envs + [0] + Flat(aux)
  }

  // ---- reading it back ----------------------------------------------------------------------------

  /** `a` points to the string `s` in memory `mem` that starts at address `rsp`, above
      the first `low` bytes. */
  ghost predicate PointsTo(mem: seq<Byte>, rsp: nat, low: nat, a: nat, s: Text) {
    rsp + low <= a < rsp + |mem| && UntilNul(mem[a - rsp..]) == s
  }

  /** Each pointer finds its string. */
  ghost predicate AllPointTo(mem: seq<Byte>, rsp: nat, low: nat, ptrs: seq<nat>, ss: seq<Text>)
    decreases |ss|
  {
    if ss == [] then ptrs == []
    else ptrs != [] && PointsTo(mem, rsp, low, ptrs[0], ss[0]) && AllPointTo(mem, rsp, low, ptrs[1..], ss[1..])
  }

  lemma {:induction false} AllPointToLen(mem: seq<Byte>, rsp: nat, low: nat, ptrs: seq<nat>, ss: seq<Text>)
    requires AllPointTo(mem, rsp, low, ptrs, ss)
    ensures |ptrs| == |ss|
    decreases |ss|
  {
    if ss != [] {
      AllPointToLen(mem, rsp, low, ptrs[1..], ss[1..]);
    }
  }

  lemma {:induction false} AllPointToEach(mem: seq<Byte>, rsp: nat, low: nat, ptrs: seq<nat>, ss: seq<Text>)
    ensures AllPointTo(mem, rsp, low, ptrs, ss) <==> |ptrs| == |ss| && forall i :: 0 <= i < |ss| ==> PointsTo(mem, rsp, low, ptrs[i], ss[i])
    decreases |ss|
  {
    if ss != [] && ptrs != [] {
      AllPointToEach(mem, rsp, low, ptrs[1..], ss[1..]);
      var p, s := ptrs[1..], ss[1..];
      assert forall i :: 0 < i < |ss| && |ptrs| == |ss| ==> ptrs[i] == p[i - 1] && ss[i] == s[i - 1];
      assert forall i :: 0 <= i < |s| && |p| == |s| ==> p[i] == ptrs[i + 1] && s[i] == ss[i + 1];
    }
  }

  /** The words are the number of arguments, pointers to them, a null, pointers to the
      environment, a null, and the auxiliary vector. */
  ghost predicate TableIs(ws: seq<nat>, args: seq<nat>, envs: seq<nat>, aux: seq<(nat, nat)>) {
    var n, m := |args|, |envs|;
    && |ws| == 3 + n + m + 2 * |aux| && ws[0] == n && ws[1..1 + n] == args && ws[1 + n] == 0
    && ws[2 + n..2 + n + m] == envs && ws[2 + n + m] == 0 && ws[3 + n + m..] == Flat(aux)
  }

  /** What the psABI promises a program at its initial stack pointer: the words `ws` it
      reads there are a table of this form, and the pointers in it find the arguments and
      the environment, all above the table. */
  ghost predicate Reads(mem: seq<Byte>, rsp: nat, ws: seq<nat>, args: seq<nat>, envs: seq<nat>, argv: seq<Text>, envp: seq<Text>, aux: seq<(nat, nat)>) {
    && ReadWords(mem, |ws|) == ws && TableIs(ws, args, envs, aux)
    && AllPointTo(mem, rsp, 8 * |ws|, args, argv) && AllPointTo(mem, rsp, 8 * |ws|, envs, envp)
  }

  /** The vector ends at its first AT_NULL. */
  ghost predicate Terminated(aux: seq<(nat, nat)>) {
    |aux| > 0 && aux[|aux| - 1] == (AT_NULL, 0) && forall i :: 0 <= i < |aux| - 1 ==> aux[i].0 != AT_NULL
  }

  /** The data above the table. */
  function Blob(argv: seq<Text>, envp: seq<Text>, phdrs: seq<Byte>, random: seq<Byte>): seq<Byte> {
    Strings(argv) + Strings(envp) + phdrs + random
  }

  lemma TailOf(table: seq<Byte>, before: seq<Byte>, pre: seq<Byte>, s: seq<Byte>, rest: seq<Byte>, behind: seq<Byte>)
    ensures (table + (before + (pre + s + rest) + behind))[|table| + |before| + |pre|..] == s + (rest + behind)
  {
    var head, tail := table + before + pre, s + (rest + behind);
    assert table + (before + (pre + s + rest) + behind) == head + tail;
    assert (head + tail)[|head|..] == tail;
  }

  /** A pointer into the data finds its string. */
  lemma PointerReads(table: seq<Byte>, before: seq<Byte>, ss: seq<Text>, behind: seq<Byte>, data: seq<Byte>, rsp: nat, i: nat, o: nat)
    requires i < |ss| && NulFree(ss[i]) && data == before + Strings(ss) + behind && o == Offsets(ss, |before|)[i]
    ensures PointsTo(table + data, rsp, |table|, rsp + |table| + o, ss[i])
  {
    var pre, rest := StringAt(ss, i, |before|);
    PieceReads(table, before, pre, ss[i], rest, behind, data, rsp, o);
  }

  lemma PieceReads(table: seq<Byte>, before: seq<Byte>, pre: seq<Byte>, s: Text, rest: seq<Byte>, behind: seq<Byte>, data: seq<Byte>, rsp: nat, o: nat)
    requires NulFree(s) && data == before + (pre + (s + [0]) + rest) + behind && o == |before| + |pre|
    ensures PointsTo(table + data, rsp, |table|, rsp + |table| + o, s)
  {
    TailOf(table, before, pre, s + [0], rest, behind);
    UntilNulIs(s, rest + behind);
  }

  ghost predicate AllNulFree(ss: seq<Text>) { forall i :: 0 <= i < |ss| ==> NulFree(ss[i]) }

  lemma PointersRead(table: seq<Byte>, before: seq<Byte>, ss: seq<Text>, behind: seq<Byte>, data: seq<Byte>, rsp: nat, at: nat)
    requires AllNulFree(ss) && data == before + Strings(ss) + behind && at == rsp + |table|
    ensures AllPointTo(table + data, rsp, |table|, Shifted(Offsets(ss, |before|), at), ss)
  {
    var offs := Offsets(ss, |before|);
    forall i: nat | i < |ss| ensures PointsTo(table + data, rsp, |table|, Shifted(offs, at)[i], ss[i]) {
      PointerReads(table, before, ss, behind, data, rsp, i, offs[i]);
    }
    AllPointToEach(table + data, rsp, |table|, Shifted(offs, at), ss);
  }

  lemma BlobSplit(a: seq<Byte>, b: seq<Byte>, c: seq<Byte>, d: seq<Byte>)
    ensures [] + a + (b + c + d) == a + b + c + d && a + b + (c + d) == a + b + c + d
  {
  }

  /** Reading the laid-out stack as the psABI prescribes recovers the arguments, the
      environment and the auxiliary vector. */
  lemma LayoutReads(argv: seq<Text>, envp: seq<Text>, phdrs: seq<Byte>, random: seq<Byte>, aux: seq<(nat, nat)>, rsp: nat, at: nat,
                    args: seq<nat>, envs: seq<nat>, ws: seq<nat>)
    requires AllNulFree(argv) && AllNulFree(envp) && at == rsp + 8 * |ws| && WordsOk(ws)
    requires args == Shifted(Offsets(argv, 0), at) && envs == Shifted(Offsets(envp, |Strings(argv)|), at) && ws == TableWords(args, envs, aux)
    ensures Reads(Words64(ws) + Blob(argv, envp, phdrs, random), rsp, ws, args, envs, argv, envp, aux)
  {
    var a, b, data := Strings(argv), Strings(envp), Blob(argv, envp, phdrs, random);
    var mem := Words64(ws) + data;
    WordsReadBack(ws, data);
    BlobSplit(a, b, phdrs, random);
    PointersRead(Words64(ws), [], argv, b + phdrs + random, data, rsp, at);
    PointersRead(Words64(ws), a, envp, phdrs + random, data, rsp, at);
    TableSlices(args, envs, aux);
  }

  lemma TableSlices(args: seq<nat>, envs: seq<nat>, aux: seq<(nat, nat)>)
    ensures TableIs(TableWords(args, envs, aux), args, envs, aux)
  {
  }

  // ---- building it ------------------------------------------------------------------------------------

  const STACK_TOP: nat := 0x1000_0000
  const STACK_LOW: nat := 0x0FF0_0000

  /** `table` at `rsp`, `data` right above it. */
  datatype Layout = Layout(rsp: nat, table: seq<Byte>, data: seq<Byte>)

  /** `push_cstr` for every string. */
  method PushStrings(before: seq<Byte>, ss: seq<Text>) returns (data: seq<Byte>, offs: seq<nat>)
    ensures data == before + Strings(ss) && offs == Offsets(ss, |before|)
  {
    data, offs := before, [];
    var i: nat := 0;
    while i < |ss|
      invariant i <= |ss| && data == before + Strings(ss[..i]) && offs == Offsets(ss[..i], |before|)
    {
      assert ss[..i + 1][..i] == ss[..i];
      BytesAssoc(before, Strings(ss[..i]), ss[i]);
      BytesAssoc(before, Strings(ss[..i]) + ss[i], [0]);
      offs := offs + [|data|];
      data := data + ss[i] + [0];
      i := i + 1;
    }
    assert ss[..|ss|] == ss;
  }

  lemma WordsSnoc(ws: seq<nat>, i: nat, table: seq<Byte>, word: seq<Byte>)
    requires i < |ws| && word == Le64(ws[i])
    ensures table + Words64(ws[..i + 1]) == table + Words64(ws[..i]) + word
  {
    var one := [ws[i]];
    assert ws[..i + 1] == ws[..i] + one && one[1..] == [];
    WordsConcat(ws[..i], one);
    assert Words64(one) == word + [];
    assert Words64(one) == word;
    BytesAssoc(table, Words64(ws[..i]), word);
  }

  /** Appends words to the table. */
  method PushWords(table: seq<Byte>, ws: seq<nat>) returns (r: seq<Byte>)
    ensures r == table + Words64(ws)
  {
    r := table;
    var i: nat := 0;
    while i < |ws|
      invariant i <= |ws| && r == table + Words64(ws[..i])
    {
      var word := Le64(ws[i]);
      WordsSnoc(ws, i, table, word);
      r := r + word;
      i := i + 1;
    }
    assert ws[..|ws|] == ws;
  }

  method BuildTable(args: seq<nat>, envs: seq<nat>, aux: seq<(nat, nat)>) returns (table: seq<Byte>)
    ensures table == Words64(TableWords(args, envs, aux))
  {
    ghost var done := [|args|];
    table := PushWords([], [|args|]);
    assert [] + Words64(done) == Words64(done);
    table, done := PushMore(table, done, args);
    table, done := PushMore(table, done, [0]);
    table, done := PushMore(table, done, envs);
    table, done := PushMore(table, done, [0]);
    table, done := PushMore(table, done, Flat(aux));
  }

  method PushMore(table: seq<Byte>, ghost done: seq<nat>, ws: seq<nat>) returns (r: seq<Byte>, ghost now: seq<nat>)
    requires table == Words64(done)
    ensures now == done + ws && r == Words64(now)
  {
    WordsConcat(done, ws);
    r := PushWords(table, ws);
    now := done + ws;
  }

  /** `bytes` can be read at address `a`. */
  ghost predicate BytesAt(mem: seq<Byte>, rsp: nat, a: nat, bytes: seq<Byte>) {
    rsp <= a && a + |bytes| <= rsp + |mem| && mem[a - rsp..a - rsp + |bytes|] == bytes
  }

  /** The copied program headers: none when a segment holds them. */
  function Copied(f: Facts, phdrs: seq<Byte>): seq<Byte> { if f.mapped.Some? then [] else phdrs }

  function AuxCount(argv: seq<Text>): nat { if argv == [] then 17 else 18 }

  /** The length of the table and of everything. */
  function TableLen(argv: seq<Text>, envp: seq<Text>): nat { 8 * (3 + |argv| + |envp| + 2 * AuxCount(argv)) }

  function TotalLen(argv: seq<Text>, envp: seq<Text>, copied: seq<Byte>, random: seq<Byte>): nat {
    TableLen(argv, envp) + |Blob(argv, envp, copied, random)|
  }

  /** The 16-aligned stack pointer that leaves room for `total` bytes. */
  function Rsp(total: nat): (r: nat)
    requires total <= STACK_TOP
    ensures r % 16 == 0 && r + total <= STACK_TOP < r + total + 16
  {
    (STACK_TOP - total) / 16 * 16
  }

  predicate FitsStack(argv: seq<Text>, envp: seq<Text>, copied: seq<Byte>, random: seq<Byte>) {
    TotalLen(argv, envp, copied, random) <= STACK_TOP && Rsp(TotalLen(argv, envp, copied, random)) / 4096 * 4096 >= STACK_LOW
  }

  /** The auxiliary vector for a layout whose data starts at `at` with `strings` bytes of
      strings, the first of them naming the program if there are arguments. */
  function AuxAt(f: Facts, named: bool, strings: nat, copied: nat, at: nat): (r: seq<(nat, nat)>)
    ensures |r| == if named then 18 else 17
  {
    Aux(f, if f.mapped.Some? then f.mapped.value else at + strings, at + strings + copied, if named then Some(at) else None)
  }

  function StringsLen(argv: seq<Text>, envp: seq<Text>): nat { |Strings(argv)| + |Strings(envp)| }

  /** Everything a program may rely on at its start; `ws` are the words of its table. */
  ghost predicate Laid(r: Layout, ws: seq<nat>, args: seq<nat>, envs: seq<nat>, aux: seq<(nat, nat)>, argv: seq<Text>, envp: seq<Text>) {
    && r.rsp % 16 == 0 && STACK_LOW <= r.rsp && r.rsp + |r.table + r.data| <= STACK_TOP
    && Reads(r.table + r.data, r.rsp, ws, args, envs, argv, envp, aux) && Terminated(aux)
  }

  /** The auxiliary vector is the program's, and its pointers find a copy of the program
      headers (unless a segment has them), the random bytes and the program's name. */
  ghost predicate AuxSays(r: Layout, aux: seq<(nat, nat)>, f: Facts, argv: seq<Text>, envp: seq<Text>, phdrs: seq<Byte>, random: seq<Byte>) {
    var mem, at, strings := r.table + r.data, r.rsp + |r.table|, StringsLen(argv, envp);
    && aux == AuxAt(f, argv != [], strings, |Copied(f, phdrs)|, at)
    && (f.mapped.None? ==> BytesAt(mem, r.rsp, at + strings, phdrs))
    && BytesAt(mem, r.rsp, at + strings + |Copied(f, phdrs)|, random)
    && (argv != [] ==> PointsTo(mem, r.rsp, |r.table|, at, argv[0]))
  }

  lemma BlobBytes(table: seq<Byte>, argv: seq<Text>, envp: seq<Text>, copied: seq<Byte>, random: seq<Byte>, rsp: nat)
    ensures var strings, mem := StringsLen(argv, envp), table + Blob(argv, envp, copied, random);
            && BytesAt(mem, rsp, rsp + |table| + strings, copied) && BytesAt(mem, rsp, rsp + |table| + strings + |copied|, random)
  {
    var a, b := Strings(argv), Strings(envp);
    SlicesOf(table, a + b, copied, random);
  }

  lemma SlicesOf(table: seq<Byte>, s: seq<Byte>, c: seq<Byte>, d: seq<Byte>)
    ensures var mem, k := table + (s + c + d), |table| + |s|;
            mem[k..k + |c|] == c && mem[k + |c|..k + |c| + |d|] == d
  {
  }

  ghost predicate PairOk(p: (nat, nat)) { 0 < p.0 < WORD_LIMIT && p.1 < WORD_LIMIT }

  lemma FixedOk(f: Facts, phdr: nat, random: nat, i: nat)
    requires FactsOk(f) && phdr < WORD_LIMIT && random < WORD_LIMIT && i < 16
    ensures PairOk(FixedPair(f, phdr, random, i))
  {
  }

  lemma {:induction false} FlatOk(aux: seq<(nat, nat)>)
    requires forall i :: 0 <= i < |aux| ==> aux[i].0 < WORD_LIMIT && aux[i].1 < WORD_LIMIT
    ensures WordsOk(Flat(aux))
  {
    if aux != [] {
      var k := |aux| - 1;
      FlatOk(aux[..k]);
    }
  }

  lemma AuxOk(f: Facts, phdr: nat, random: nat, execfn: Option<nat>)
    requires FactsOk(f) && phdr < WORD_LIMIT && random < WORD_LIMIT && (execfn.Some? ==> execfn.value < WORD_LIMIT)
    ensures WordsOk(Flat(Aux(f, phdr, random, execfn))) && Terminated(Aux(f, phdr, random, execfn))
  {
    var aux := Aux(f, phdr, random, execfn);
    forall i: nat | i < |aux| ensures aux[i].0 < WORD_LIMIT && aux[i].1 < WORD_LIMIT && (i < |aux| - 1 ==> aux[i].0 != 0) {
      if i < 16 {
        FixedOk(f, phdr, random, i);
      }
    }
    FlatOk(aux);
  }

  lemma TableOk(args: seq<nat>, envs: seq<nat>, aux: seq<(nat, nat)>)
    requires WordsOk(args) && WordsOk(envs) && WordsOk(Flat(aux)) && |args| < WORD_LIMIT
    ensures WordsOk(TableWords(args, envs, aux))
  {
  }

  lemma {:induction false} OffsetsBound(ss: seq<Text>, base: nat, i: nat)
    requires i < |ss|
    ensures Offsets(ss, base)[i] < base + |Strings(ss)|
    decreases |ss|
  {
    var k := |ss| - 1;
    if i < k {
      OffsetsBound(ss[..k], base, i);
    }
  }

  lemma PointersOk(ss: seq<Text>, base: nat, at: nat)
    requires at + base + |Strings(ss)| < WORD_LIMIT
    ensures WordsOk(Shifted(Offsets(ss, base), at))
  {
    forall i: nat | i < |ss| ensures Shifted(Offsets(ss, base), at)[i] < WORD_LIMIT {
      OffsetsBound(ss, base, i);
    }
  }

  lemma AuxAtOk(f: Facts, named: bool, strings: nat, copied: nat, at: nat)
    requires FactsOk(f) && at + strings + copied < WORD_LIMIT
    ensures WordsOk(Flat(AuxAt(f, named, strings, copied, at))) && Terminated(AuxAt(f, named, strings, copied, at))
  {
    AuxOk(f, if f.mapped.Some? then f.mapped.value else at + strings, at + strings + copied, if named then Some(at) else None);
  }

  lemma {:induction false} FirstOffset(ss: seq<Text>)
    requires ss != []
    ensures Offsets(ss, 0)[0] == 0
  {
    if |ss| > 1 {
      FirstOffset(ss[..|ss| - 1]);
    }
  }

  lemma NameReads(table: seq<Byte>, argv: seq<Text>, envp: seq<Text>, copied: seq<Byte>, random: seq<Byte>, rsp: nat)
    requires argv != [] && NulFree(argv[0])
    ensures PointsTo(table + Blob(argv, envp, copied, random), rsp, |table|, rsp + |table|, argv[0])
  {
    FirstOffset(argv);
    BlobSplit(Strings(argv), Strings(envp), copied, random);
    PointerReads(table, [], argv, Strings(envp) + copied + random, Blob(argv, envp, copied, random), rsp, 0, 0);
  }

  /** The layout of a fitting stack is what the psABI promises. */
  lemma LayoutLaid(f: Facts, argv: seq<Text>, envp: seq<Text>, copied: seq<Byte>, random: seq<Byte>, rsp: nat, at: nat, r: Layout,
                   ws: seq<nat>, args: seq<nat>, envs: seq<nat>, aux: seq<(nat, nat)>)
    requires FactsOk(f) && AllNulFree(argv) && AllNulFree(envp)
    requires rsp % 16 == 0 && rsp >= STACK_LOW && rsp + TotalLen(argv, envp, copied, random) <= STACK_TOP && at == rsp + TableLen(argv, envp)
    requires args == Shifted(Offsets(argv, 0), at) && envs == Shifted(Offsets(envp, |Strings(argv)|), at)
    requires aux == AuxAt(f, argv != [], StringsLen(argv, envp), |copied|, at) && ws == TableWords(args, envs, aux)
    requires r == Layout(rsp, Words64(ws), Blob(argv, envp, copied, random))
    ensures Laid(r, ws, args, envs, aux, argv, envp)
  {
    AuxAtOk(f, argv != [], StringsLen(argv, envp), |copied|, at);
    PointersOk(argv, 0, at);
    PointersOk(envp, |Strings(argv)|, at);
    TableOk(args, envs, aux);
    LayoutReads(argv, envp, copied, random, aux, rsp, at, args, envs, ws);
  }

  lemma LayoutSays(f: Facts, argv: seq<Text>, envp: seq<Text>, phdrs: seq<Byte>, random: seq<Byte>, r: Layout, aux: seq<(nat, nat)>)
    requires r.data == Blob(argv, envp, Copied(f, phdrs), random) && AllNulFree(argv)
    requires aux == AuxAt(f, argv != [], StringsLen(argv, envp), |Copied(f, phdrs)|, r.rsp + |r.table|)
    ensures AuxSays(r, aux, f, argv, envp, phdrs, random)
  {
    BlobBytes(r.table, argv, envp, Copied(f, phdrs), random, r.rsp);
    if argv != [] {
      NameReads(r.table, argv, envp, Copied(f, phdrs), random, r.rsp);
    }
  }

  /** The first pass: strings, program headers and random bytes, with their offsets. */
  method BuildData(f: Facts, argv: seq<Text>, envp: seq<Text>, phdrs: seq<Byte>, random: seq<Byte>)
    returns (data: seq<Byte>, argOffs: seq<nat>, envOffs: seq<nat>, phdrOff: nat, randomOff: nat)
    ensures data == Blob(argv, envp, Copied(f, phdrs), random)
    ensures argOffs == Offsets(argv, 0) && envOffs == Offsets(envp, |Strings(argv)|)
    ensures phdrOff == StringsLen(argv, envp) && randomOff == phdrOff + |Copied(f, phdrs)|
  {
    data, argOffs := PushStrings([], argv);
    assert data == Strings(argv);
    data, envOffs := PushStrings(data, envp);
    phdrOff := |data|;
    data := data + Copied(f, phdrs);
    randomOff := |data|;
    data := data + random;
  }

  /** Where the data starts. */
  function DataAt(argv: seq<Text>, envp: seq<Text>, copied: seq<Byte>, random: seq<Byte>): nat
    requires FitsStack(argv, envp, copied, random)
  {
    Rsp(TotalLen(argv, envp, copied, random)) + TableLen(argv, envp)
  }

  function ArgPtrs(argv: seq<Text>, at: nat): seq<nat> { Shifted(Offsets(argv, 0), at) }

  function EnvPtrs(argv: seq<Text>, envp: seq<Text>, at: nat): seq<nat> { Shifted(Offsets(envp, |Strings(argv)|), at) }

  function AuxFor(f: Facts, argv: seq<Text>, envp: seq<Text>, copied: seq<Byte>, at: nat): (r: seq<(nat, nat)>)
    ensures |r| == AuxCount(argv)
  {
    AuxAt(f, argv != [], StringsLen(argv, envp), |copied|, at)
  }

  function TableFor(f: Facts, argv: seq<Text>, envp: seq<Text>, copied: seq<Byte>, at: nat): (r: seq<nat>)
    ensures 8 * |r| == TableLen(argv, envp)
  {
    TableWords(ArgPtrs(argv, at), EnvPtrs(argv, envp, at), AuxFor(f, argv, envp, copied, at))
  }

  /** The stack of a program. */
  function LayoutFor(f: Facts, argv: seq<Text>, envp: seq<Text>, copied: seq<Byte>, random: seq<Byte>): Layout
    requires FitsStack(argv, envp, copied, random)
  {
    Layout(Rsp(TotalLen(argv, envp, copied, random)), Words64(TableFor(f, argv, envp, copied, DataAt(argv, envp, copied, random))),
           Blob(argv, envp, copied, random))
  }

  /** Reading that stack as the psABI prescribes recovers the arguments, the environment
      and a terminated auxiliary vector; the stack pointer is aligned and everything stays
      inside the reserved region. */
  lemma StackReadsBack(f: Facts, argv: seq<Text>, envp: seq<Text>, copied: seq<Byte>, random: seq<Byte>, at: nat)
    requires FactsOk(f) && AllNulFree(argv) && AllNulFree(envp) && FitsStack(argv, envp, copied, random) && at == DataAt(argv, envp, copied, random)
    ensures Laid(LayoutFor(f, argv, envp, copied, random), TableFor(f, argv, envp, copied, at), ArgPtrs(argv, at), EnvPtrs(argv, envp, at),
                 AuxFor(f, argv, envp, copied, at), argv, envp)
  {
    var r, rsp := LayoutFor(f, argv, envp, copied, random), Rsp(TotalLen(argv, envp, copied, random));
    LayoutLaid(f, argv, envp, copied, random, rsp, at, r, TableFor(f, argv, envp, copied, at), ArgPtrs(argv, at), EnvPtrs(argv, envp, at), AuxFor(f, argv, envp, copied, at));
  }

  /** Its auxiliary vector points at the program headers, the random bytes and the name. */
  lemma StackAux(f: Facts, argv: seq<Text>, envp: seq<Text>, phdrs: seq<Byte>, random: seq<Byte>, at: nat)
    requires AllNulFree(argv) && FitsStack(argv, envp, Copied(f, phdrs), random) && at == DataAt(argv, envp, Copied(f, phdrs), random)
    ensures AuxSays(LayoutFor(f, argv, envp, Copied(f, phdrs), random), AuxFor(f, argv, envp, Copied(f, phdrs), at), f, argv, envp, phdrs, random)
  {
    LayoutSays(f, argv, envp, phdrs, random, LayoutFor(f, argv, envp, Copied(f, phdrs), random), AuxFor(f, argv, envp, Copied(f, phdrs), at));
  }

  /** Both passes of `setup_linux_stack`: fails exactly when the layout does not fit the
      reserved region. */
  method BuildLayout(f: Facts, argv: seq<Text>, envp: seq<Text>, phdrs: seq<Byte>, random: seq<Byte>) returns (r: Option<Layout>)
    ensures r == if FitsStack(argv, envp, Copied(f, phdrs), random) then Some(LayoutFor(f, argv, envp, Copied(f, phdrs), random)) else None
  {
    var data, argOffs, envOffs, phdrOff, randomOff := BuildData(f, argv, envp, phdrs, random);
    var tableLen := 8 * (3 + |argv| + |envp| + 2 * (if argv == [] then 17 else 18));
    var total := tableLen + |data|;
    r := None;
    if total <= STACK_TOP {
      var rsp := Rsp(total);
      if rsp / 4096 * 4096 >= STACK_LOW {
        var table := PlaceTable(f, argv, envp, Copied(f, phdrs), argOffs, envOffs, phdrOff, randomOff, rsp + tableLen);
        r := Some(Layout(rsp, table, data));
      }
    }
  }

  /** The second pass, once the place of the data is known. */
  method PlaceTable(f: Facts, argv: seq<Text>, ghost envp: seq<Text>, ghost copied: seq<Byte>, argOffs: seq<nat>, envOffs: seq<nat>, phdrOff: nat, randomOff: nat, at: nat)
    returns (table: seq<Byte>)
    requires argOffs == Offsets(argv, 0) && envOffs == Offsets(envp, |Strings(argv)|)
    requires phdrOff == StringsLen(argv, envp) && randomOff == phdrOff + |copied|
    ensures table == Words64(TableFor(f, argv, envp, copied, at))
  {
    if argv != [] {
      FirstOffset(argv);
    }
    var pairs := Aux(f, if f.mapped.Some? then f.mapped.value else at + phdrOff, at + randomOff, if argv == [] then None else Some(at + argOffs[0]));
    assert pairs == AuxFor(f, argv, envp, copied, at);
    table := BuildTable(Shifted(argOffs, at), Shifted(envOffs, at), pairs);
  }
}
