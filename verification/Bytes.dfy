/** Bytes and little-endian numbers. */
module Bytes {
  type Byte = x: nat | x < 256

  const WORD_LIMIT: nat := 0x1_0000_0000_0000_0000

  /** `v.to_le_bytes()`, `n` bytes wide. */
  function ToLe(v: nat, n: nat): (r: seq<Byte>)
    ensures |r| == n
    decreases n
  {
    if n == 0 then [] else [v % 256] + ToLe(v / 256, n - 1)
  }

  /** `from_le_bytes`. */
  function FromLe(b: seq<Byte>): nat
    decreases |b|
  {
    if b == [] then 0
    else
      var low: nat := b[0];
      low + 256 * FromLe(b[1..])
  }

  /** Byte `k` of a little-endian number. */
  function ByteOf(v: nat, k: nat): (r: nat)
    ensures r < 256
  {
    if k == 0 then v % 256 else ByteOf(v / 256, k - 1)
  }

  function Pow256(n: nat): nat { if n == 0 then 1 else 256 * Pow256(n - 1) }

  lemma {:induction false} LeRoundTrip(v: nat, n: nat)
    requires v < Pow256(n)
    ensures FromLe(ToLe(v, n)) == v
    decreases n
  {
    if n > 0 {
      LeRoundTrip(v / 256, n - 1);
      assert ToLe(v, n)[1..] == ToLe(v / 256, n - 1);
    }
  }

  lemma {:induction false} FromLeBound(b: seq<Byte>)
    ensures FromLe(b) < Pow256(|b|)
    decreases |b|
  {
    if b != [] {
      FromLeBound(b[1..]);
    }
  }

  lemma Pow256Of8()
    ensures Pow256(8) == WORD_LIMIT
  {
    assert Pow256(4) == 0x1_0000_0000;
    assert Pow256(6) == 0x1_0000_0000_0000;
  }

  lemma {:induction false} ToLeAt(v: nat, n: nat, i: nat)
    requires i < n
    ensures ToLe(v, n)[i] == ByteOf(v, i)
    decreases n
  {
    if i > 0 {
      ToLeAt(v / 256, n - 1, i - 1);
    }
  }

  /** A 64-bit word as bytes. */
  function Le64(v: nat): (r: seq<Byte>)
    ensures |r| == 8
  {
    seq(8, i requires 0 <= i < 8 => ByteOf(v, i))
  }

  lemma Le64RoundTrip(v: nat)
    requires v < WORD_LIMIT
    ensures FromLe(Le64(v)) == v
  {
    Pow256Of8();
    LeRoundTrip(v, 8);
    forall i: nat | i < 8 ensures ToLe(v, 8)[i] == Le64(v)[i] {
      ToLeAt(v, 8, i);
    }
    assert ToLe(v, 8) == Le64(v);
  }
}
